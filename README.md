# cunit: registry, check semantics and runner, modelled in Dafny

This project models the core of `cunit.h`, a single-header C unit-testing framework.
The core has three tightly linked parts.

- **Self-registration.** Every `CUNIT_TEST(group, name)` generates an initialiser that
  runs before `main`. It scans the process-wide `CUnitContext` group list for the group
  name. If the name is absent it prepends a zeroed group and bumps `groupCount`. It then
  appends the test at the tail of that group and bumps `testCount` and `totalTests`.
  A failed `malloc` silently skips the step.
- **Check macros.** Every assertion or expectation first increments `asserts` or
  `expects`. A failed check sets `ret = 1`, and nothing clears it. A failed assertion
  also returns from the test routine; a failed expectation lets it continue.
- **`cunit_main`.** It walks the groups from the list head and each group's tests from
  `testHead`. It runs each test on a zeroed result and counts the test as passed when
  `ret` is still 0, otherwise as failed. It always returns 0.

Layout:

- `Names.dfy`: the 64-character name bound and `strncpy` truncation.
- `Checks.dfy`: the check macros, the `CUnitTestResult` record as a class with an
  in-place `Record` per check, and `RunRoutine`, the loop that runs a routine's checks.
  All of these are proved against the pure `Executed`/`Run` specification.
- `Registry.dfy`: group and test records as values, the lookup, and one registration
  step (`Registered`). It also holds the invariants for any series of registrations,
  and the ordering theorem for series whose allocations succeed and whose group names fit.
- `Runner.dfy`: the reports and tallies of a whole run, as values, with their
  ordering and counting lemmas.
- `Context.dfy`: `CUnitContext` as a class with `groups: seq<Group>` (index 0 is the
  list head) and its counters. It holds the lookup `while` loop (`FindGroup`), the
  initialiser (`Register`) and `cunit_main` (`RunAll`, whose inner loop is `RunGroup`), each proved
  against the pure definitions. An end-to-end example closes the file.

A test routine is represented by the checks it reaches when no assertion fails, in
order; `Executed` cuts that sequence after the first failed assertion. Each check is an
assertion or an expectation and carries the data its macro judges. A TRUE/FALSE check
carries the condition's integer value and is judged as `CUNIT_TEST_BASIC` judges it
(cunit.h:91): the value must equal 1 (TRUE) or 0 (FALSE). A comparison check carries
whether `v1 op v2` held, and a string check its two strings or whether `strcasecmp`
returned 0. Allocation outcomes are boolean parameters of `Register`.

### Behaviour of the code worth noting

- The framework has no setup or teardown hooks and no selection of tests by name: every
  registered test runs. `skipped` is never written; `Valid()` keeps it at 0.
- `cunit_main` returns 0 even when tests fail. `RunAll` ensures `status == 0`.
- Group names are not always unique. Lookup compares the truncated stored name with the
  full declared name, so a group name over 64 characters is never found again. Each test
  declared under such a name gets a fresh group with a duplicate stored name
  (`LongGroupNameSplits`). Stored names are unique only below the 64-character bound
  (`WellFormed`).

## Model

| member | source | states |
|---|---|---|
| Names.Truncate | cunit.h:228-231 | a stored name is a prefix of the declared name, never longer than CUNIT_NAME_LENGTH_MAX (64), and is the whole name when that fits |
| Names.TruncateFixesShortNames | cunit.h:231 | a stored name equals its declared name exactly when the declared name has at most 64 characters |
| Checks.Executed | cunit.h:99-103 | the checks that run form a prefix of the routine; none but the last is a failed assertion, and the routine is cut short only right after one |
| Checks.Run | cunit.h:84-105 | a zeroed result ends with `ret` 0 or 1, `ret == 0` exactly when every executed check held, and `asserts + expects` equals the number of executed checks |
| Checks.CountTotal | cunit.h:85-89 | every check is counted once, either as an assertion or as an expectation |
| Checks.AllChecksPass | cunit.h:91-104 | a routine whose checks all hold passes, and every assertion and expectation in it is counted |
| Checks.FailedAssertionAborts | cunit.h:99-103 | a failed assertion at position i, with no failed assertion before it, fails the test; the counters cover exactly the checks up to and including position i |
| Checks.ExpectationsRunThrough | cunit.h:152-156 | in a routine of expectations only, every check runs and is counted, and the test fails iff some expectation failed |
| Checks.FailureIsSticky | cunit.h:190-194 | once a prefix of the routine has failed, no checks appended after it can make the test pass again |
| Checks.BasicAsWrittenRejectsTruthyValue | cunit.h:91 | as written, `CUNIT_ASSERT_TRUE(2)` fails, although its condition is true in C |
| Checks.TruthyAssertionAborts | cunit.h:84-104 | `CUNIT_ASSERT_TRUE(2); CUNIT_EXPECT_TRUE(1);` ends with `ret` 1, one assertion counted and the expectation never reached |
| Checks.BasicFailsMeansWrongTruth | cunit.h:108-112 | the corrected basic check passes iff the condition's truth value is the expected one, and it agrees with the code whenever the condition is 0 or 1 |
| Checks.TestResult.constructor | cunit.h:283 | the result record starts zeroed |
| Checks.TestResult.Record | cunit.h:133-158 | one check macro: exactly one of `asserts`/`expects` grows by one, `ret` becomes 1 on failure and is otherwise unchanged, and the routine must return iff a failed assertion occurred |
| Checks.RunRoutine | cunit.h:262-287 | running a routine (each check one macro, whose failed assertion returns at cunit.h:101-103, 154-156 or 192-194) adds the assertion and expectation counts of the executed checks and sets `ret` to 1 iff one of them failed |
| Registry.Lookup | cunit.h:216-223 | the scan returns the first group whose stored name equals the declared name, and returns none iff no group has that name |
| Registry.RegisterIntoExistingGroup | cunit.h:238-258 | a name already present adds no group; the test is appended at the tail of the found group only, and every other group is unchanged |
| Registry.RegisterIntoNewGroup | cunit.h:225-236 | an absent name yields exactly one new group at the head, with the truncated name, followed by the old list unchanged |
| Registry.RegisterAllocationFailure | cunit.h:226-240 | a failed group allocation changes nothing; a failed test allocation changes nothing, or leaves only the new empty group when the group had to be created |
| Registry.RegisteredCounts | cunit.h:234-257 | the number of groups grows by one exactly when a group is added, and the sum of `testCount` grows by one exactly when a test is linked |
| Registry.RegisteredWellFormed | cunit.h:216-259 | registration keeps `testCount` equal to the group's list length, all names within 64 characters, and stored group names unique unless they are full 64-character truncations |
| Registry.RegisterAllWellFormed | cunit.h:215-260 | the same invariant holds after any series of registrations, in any order |
| Registry.LongGroupNameNeverFound | cunit.h:219 | in a well-formed registry, lookup of a group name longer than 64 characters always fails |
| Registry.LongGroupNameSplits | cunit.h:216-236 | two tests, any two declarations, registered under the same over-long group name create two head groups with the same truncated name, the later test's group first, each holding only its own test |
| Registry.RegistrationOrder | cunit.h:225-253 | when every allocation succeeds and group names fit, groups appear in reverse first-seen order, and each group holds exactly its declared tests in registration order |
| Runner.TestReportsAt | cunit.h:278-302 | a group's tests are each reported once, in list order from `testHead` |
| Runner.ReportsLength | cunit.h:277-307 | a run reports exactly as many tests as the sum of the groups' `testCount` |
| Runner.ReportAt | cunit.h:277-307 | test j of group i is reported at position (tests of the groups before i) + j; groups run head first and tests in list order |
| Runner.CountsAppend | cunit.h:289-294 | the passed and failed tallies of two runs, one after the other, add up |
| Runner.ReportsAround | cunit.h:277-307 | a run reports the groups nearer the head, then group i's tests, then the groups after it |
| Runner.PassedPlusFailed | cunit.h:289-294 | every reported test counts as passed or as failed, never both |
| CUnit.Context.constructor | cunit.h:318 | the zero-initialised context is valid and empty |
| CUnit.Context.FindGroup | cunit.h:216-223 | the `while` loop returns what `Lookup` specifies: the first matching group, or none |
| CUnit.Context.Register | cunit.h:215-260 | the initialiser leaves the list as `Registered` describes; `groupCount` and `totalTests` grow exactly when a group or test is added; the run counters are untouched; validity is kept |
| CUnit.Context.RunTest | cunit.h:281-294 | one test on a zeroed result yields its specified report, and exactly one of `passed`/`failed` grows by one |
| CUnit.Context.RunGroup | cunit.h:278-302 | the inner loop reports a group's tests in list order from `testHead`, and adds their passing and failing counts to `passed`/`failed` |
| CUnit.Context.RunAll | cunit.h:266-316 | the nested loops report every test in `Reports` order, add the passing and failing counts to `passed`/`failed` (together `totalTests`), leave the registry unchanged, and return 0 |
| CUnit.BuildExample | cunit.h:215-260 | three initialisers on a fresh context, "math" twice and then "text", leave the list "text" then "math", with "math" holding add_ok then add_bad |
| CUnit.MathExample | cunit.h:277-315 | a registry with "math" (add_ok, add_bad) declared before "text" (same) runs "text" first and then "math" in declaration order: 2 pass, 1 fails, status 0 |

## Left out

- All output: the `PRINTF` status lines, the summary lines, colour strings and plural
  wording. `Report` values stand for the per-test status lines.
- The `_Generic` value printer and the relational and floating-point comparisons of
  `CUNIT_TEST_BINARY`. A binary check carries whether `v1 op v2` held.
- `strcasecmp` is left abstract: a case-insensitive string check carries whether it
  returned 0. `strcmp(s1, s2) == 0` is modelled as equality. Names and compared strings
  are NUL-free C string contents (`Names.CString`), as stringified macro arguments are.
  One Dafny character stands for one C `char`, that is, one byte, so the 64-character
  bound is the byte bound `strncpy` applies; a name using multi-byte UTF-8 characters is
  modelled by its byte sequence.
- `malloc`/`memset` as memory operations. Records are values, and allocation success is
  a boolean parameter.
- The `next`, `testHead` and `testTail` pointers are not modelled. Groups are values in
  `Context.groups`, and a group's tests are a sequence from head to tail. Nothing else
  holds a pointer to a record, so aliasing plays no role.
- `__attribute__((constructor))` start-up ordering and `__attribute__((weak))`.
  Registration is a sequence of explicit `Register` calls in any order.
- The `CUNIT_MAIN` wrapper, `argc`/`argv` (which `cunit_main` ignores) and `CUNIT_MSG`.
- Counters are unbounded integers. A C `int` counter would overflow only on its 2^31-th
  increment (past INT_MAX = 2^31 - 1), that is, with at least 2^31 registered tests or checks.
- A test routine is only the sequence of checks it reaches when no assertion fails; code
  between checks is not modelled. A routine whose later checks depend on the values of
  earlier ones, writes to the global context, or never returns is outside the model.

## Findings

| source | as written | input that shows it | evidently intended | confidence | as-written member | corrected member |
|---|---|---|---|---|---|---|
| cunit.h:91 | `CUNIT_TEST_BASIC` fails when `(cond) != val`, where `val` is 1 for the TRUE macros, so the condition's integer value is compared with 1 | `CUNIT_ASSERT_TRUE(2)` counts as a failed assertion and prints "Value of '2' is FALSE" | a TRUE check passes iff the condition is non-zero (C truth), as the message wording says | not executed; high | Checks.BasicFailsAsWritten (shown by Checks.BasicAsWrittenRejectsTruthyValue) | Checks.BasicFails (proved in Checks.BasicFailsMeansWrongTruth; the execution model keeps the code's rule, so Checks.Holds uses Checks.BasicFailsAsWritten) |
