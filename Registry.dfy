/** The test registry as values: group and test records, the group lookup and one
    self-registration step (the initialiser that CUNIT_TEST generates), together
    with the invariants registration keeps.

    A group list is a sequence whose index 0 is the list head (`groups` in the
    context); a group's tests run from `testHead` (index 0) to `testTail` (the
    last index). */
module Registry {
  import opened Names
  import opened Checks

  datatype Option<T> = None | Some(value: T)

  /** What `CUNIT_TEST(group, name) { body }` declares. */
  datatype Declaration = Declaration(group: CString, name: CString, routine: seq<Check>)

  /** One run of a declaration's initialiser, with the outcome of its two `malloc` calls
      (true when the allocation succeeds). */
  datatype Registration = Registration(decl: Declaration, groupAlloc: bool, testAlloc: bool)

  /** CUnitTest */
  datatype Test = Test(name: CString, routine: seq<Check>)

  /** CUnitTestGroup */
  datatype Group = Group(name: CString, testCount: int, tests: seq<Test>)

  /** A zeroed test record filled in by the initialiser. */
  function NewTest(d: Declaration): Test
  {
    Test(Truncate(d.name), d.routine)
  }

  /** A zeroed group record with its name copied in. */
  function NewGroup(name: CString): Group
  {
    Group(Truncate(name), 0, [])
  }

  /** Linking a test at the tail of a group and bumping its `testCount`. */
  function AppendTest(g: Group, t: Test): Group
  {
    g.(testCount := g.testCount + 1, tests := g.tests + [t])
  }

  /** The scan of the group list: the first group whose stored name equals the
      declared name (`strcmp(group->name, #__group) == 0`), or none. */
  function Lookup(groups: seq<Group>, name: CString): (r: Option<nat>)
    ensures r.Some? ==> r.value < |groups| && groups[r.value].name == name
    ensures r.Some? ==> forall j :: 0 <= j < r.value ==> groups[j].name != name
    ensures r.None? <==> forall j :: 0 <= j < |groups| ==> groups[j].name != name
  {
    if groups == [] then None
    else if groups[0].name == name then Some(0)
    else
      match Lookup(groups[1..], name)
      case Some(i) => Some(i + 1)
      case None => None
  }

  /** The initialiser creates and prepends a group. */
  predicate GroupAdded(groups: seq<Group>, reg: Registration)
  {
    Lookup(groups, reg.decl.group).None? && reg.groupAlloc
  }

  /** The initialiser links a test into a group. */
  predicate TestAdded(groups: seq<Group>, reg: Registration)
  {
    (Lookup(groups, reg.decl.group).Some? || reg.groupAlloc) && reg.testAlloc
  }

  /** The group list after one initialiser ran. */
  function Registered(groups: seq<Group>, reg: Registration): seq<Group>
  {
    var d := reg.decl;
    match Lookup(groups, d.group)
    case Some(i) =>
      if reg.testAlloc then groups[i := AppendTest(groups[i], NewTest(d))] else groups
    case None =>
      if !reg.groupAlloc then groups
      else if reg.testAlloc then [AppendTest(NewGroup(d.group), NewTest(d))] + groups
      else [NewGroup(d.group)] + groups
  }

  /** The group list after initialisers ran in the given order. */
  function RegisterAll(groups: seq<Group>, regs: seq<Registration>): seq<Group>
  {
    if regs == [] then groups
    else Registered(RegisterAll(groups, regs[..|regs| - 1]), regs[|regs| - 1])
  }

  /** The sum of `testCount` over a group list. */
  function SumCounts(groups: seq<Group>): int
  {
    if groups == [] then 0 else groups[0].testCount + SumCounts(groups[1..])
  }

  /** What every registration keeps: each group's `testCount` is the length of its list,
      stored names fit the buffer, and two groups share a name only when it is a
      truncated, full-length one. */
  ghost predicate WellFormed(groups: seq<Group>)
  {
    && (forall i :: 0 <= i < |groups| ==> groups[i].testCount == |groups[i].tests|)
    && (forall i :: 0 <= i < |groups| ==> |groups[i].name| <= NameLengthMax)
    && (forall i, j :: 0 <= i < |groups| && 0 <= j < |groups[i].tests| ==>
          |groups[i].tests[j].name| <= NameLengthMax)
    && (forall i, j :: 0 <= i < j < |groups| && groups[i].name == groups[j].name ==>
          |groups[i].name| == NameLengthMax)
  }

  /** A name already present (as stored) gets the test appended to that group, and no
      other group changes. */
  lemma RegisterIntoExistingGroup(groups: seq<Group>, reg: Registration, i: nat)
    requires Lookup(groups, reg.decl.group) == Some(i)
    ensures !GroupAdded(groups, reg)
    ensures |Registered(groups, reg)| == |groups|
    ensures forall k :: 0 <= k < |groups| && k != i ==> Registered(groups, reg)[k] == groups[k]
    ensures Registered(groups, reg)[i].name == groups[i].name
    ensures Registered(groups, reg)[i].tests
              == groups[i].tests + (if reg.testAlloc then [NewTest(reg.decl)] else [])
  {
  }

  /** An absent name yields exactly one new group, at the head, holding at most the new test. */
  lemma RegisterIntoNewGroup(groups: seq<Group>, reg: Registration)
    requires Lookup(groups, reg.decl.group).None? && reg.groupAlloc
    ensures |Registered(groups, reg)| == |groups| + 1
    ensures Registered(groups, reg)[1..] == groups
    ensures Registered(groups, reg)[0].name == Truncate(reg.decl.group)
    ensures Registered(groups, reg)[0].tests == if reg.testAlloc then [NewTest(reg.decl)] else []
  {
  }

  /** A failed group allocation changes nothing; a failed test allocation leaves at most
      the newly created, empty group. */
  lemma RegisterAllocationFailure(groups: seq<Group>, reg: Registration)
    ensures Lookup(groups, reg.decl.group).None? && !reg.groupAlloc ==> Registered(groups, reg) == groups
    ensures Lookup(groups, reg.decl.group).Some? && !reg.testAlloc ==> Registered(groups, reg) == groups
    ensures Lookup(groups, reg.decl.group).None? && reg.groupAlloc && !reg.testAlloc ==>
              Registered(groups, reg) == [Group(Truncate(reg.decl.group), 0, [])] + groups
  {
  }

  lemma {:induction false} SumCountsUpdate(groups: seq<Group>, i: nat, g: Group)
    requires i < |groups|
    ensures SumCounts(groups[i := g]) == SumCounts(groups) - groups[i].testCount + g.testCount
  {
    if i > 0 {
      assert groups[i := g][1..] == groups[1..][i - 1 := g];
      SumCountsUpdate(groups[1..], i - 1, g);
    }
  }

  lemma {:induction false} SumCountsAppend(groups: seq<Group>, g: Group)
    ensures SumCounts(groups + [g]) == SumCounts(groups) + g.testCount
  {
    if groups != [] {
      assert (groups + [g])[1..] == groups[1..] + [g];
      SumCountsAppend(groups[1..], g);
    }
  }

  lemma {:induction false} SumCountsNonNegative(groups: seq<Group>)
    requires forall k :: 0 <= k < |groups| ==> groups[k].testCount >= 0
    ensures SumCounts(groups) >= 0
  {
    if groups != [] {
      SumCountsNonNegative(groups[1..]);
    }
  }

  /** Registration bumps `groupCount` and `totalTests` exactly when it adds a group or a
      test, so both counters keep matching the list. */
  lemma RegisteredCounts(groups: seq<Group>, reg: Registration)
    ensures |Registered(groups, reg)| == |groups| + (if GroupAdded(groups, reg) then 1 else 0)
    ensures SumCounts(Registered(groups, reg)) == SumCounts(groups) + (if TestAdded(groups, reg) then 1 else 0)
  {
    match Lookup(groups, reg.decl.group)
    case Some(i) =>
      if reg.testAlloc {
        SumCountsUpdate(groups, i, AppendTest(groups[i], NewTest(reg.decl)));
      }
    case None =>
      if reg.groupAlloc {
        var r := Registered(groups, reg);
        assert r[1..] == groups;
      }
  }

  lemma RegisteredWellFormed(groups: seq<Group>, reg: Registration)
    requires WellFormed(groups)
    ensures WellFormed(Registered(groups, reg))
  {
    var r := Registered(groups, reg);
    match Lookup(groups, reg.decl.group)
    case Some(i) =>
      assert forall k :: 0 <= k < |r| ==> r[k].name == groups[k].name;
    case None =>
      if reg.groupAlloc {
        assert r[1..] == groups;
        forall j | 0 < j < |r| && r[0].name == r[j].name
          ensures |r[0].name| == NameLengthMax
        {
          assert groups[j - 1].name != reg.decl.group;
        }
      }
  }

  lemma {:induction false} RegisterAllWellFormed(groups: seq<Group>, regs: seq<Registration>)
    requires WellFormed(groups)
    ensures WellFormed(RegisterAll(groups, regs))
  {
    if regs != [] {
      RegisterAllWellFormed(groups, regs[..|regs| - 1]);
      RegisteredWellFormed(RegisterAll(groups, regs[..|regs| - 1]), regs[|regs| - 1]);
    }
  }

  /** A group name longer than CUNIT_NAME_LENGTH_MAX is never found, because the lookup
      compares the truncated stored name with the full declared one. */
  lemma LongGroupNameNeverFound(groups: seq<Group>, name: CString)
    requires WellFormed(groups) && |name| > NameLengthMax
    ensures Lookup(groups, name).None?
  {
  }

  /** Consequently two tests declared under the same over-long group name land in two
      distinct groups carrying the same stored name, the later test's group at the head. */
  lemma LongGroupNameSplits(groups: seq<Group>, r1: Registration, r2: Registration)
    requires WellFormed(groups) && |r1.decl.group| > NameLengthMax
    requires r2.decl.group == r1.decl.group && r1.groupAlloc && r2.groupAlloc
    ensures var twice := Registered(Registered(groups, r1), r2);
      && |twice| == |groups| + 2
      && twice[0].name == twice[1].name == r1.decl.group[..NameLengthMax]
      && twice[0].tests == (if r2.testAlloc then [NewTest(r2.decl)] else [])
      && twice[1].tests == (if r1.testAlloc then [NewTest(r1.decl)] else [])
      && twice[2..] == groups
  {
    RegisteredWellFormed(groups, r1);
    var once := Registered(groups, r1);
    assert once[1..] == groups;
    var twice := Registered(once, r2);
    assert twice[1..] == once;
  }

  // Order of the registry after a series of registrations

  predicate Distinct(s: seq<CString>)
  {
    forall i, j :: 0 <= i < j < |s| ==> s[i] != s[j]
  }

  function Reverse(s: seq<CString>): (r: seq<CString>)
    ensures |r| == |s|
  {
    seq(|s|, i requires 0 <= i < |s| => s[|s| - 1 - i])
  }

  /** The distinct names of a sequence, in order of first occurrence. */
  function FirstSeen(names: seq<CString>): seq<CString>
  {
    if names == [] then []
    else
      var seen := FirstSeen(names[..|names| - 1]);
      if names[|names| - 1] in seen then seen else seen + [names[|names| - 1]]
  }

  function GroupNames(groups: seq<Group>): (r: seq<CString>)
    ensures |r| == |groups|
  {
    seq(|groups|, i requires 0 <= i < |groups| => groups[i].name)
  }

  function DeclaredGroups(regs: seq<Registration>): (r: seq<CString>)
    ensures |r| == |regs|
  {
    seq(|regs|, i requires 0 <= i < |regs| => regs[i].decl.group)
  }

  /** The test records of the declarations made under one group name, in their order. */
  function TestsDeclared(regs: seq<Registration>, name: CString): seq<Test>
  {
    if regs == [] then []
    else
      TestsDeclared(regs[..|regs| - 1], name)
        + (if regs[|regs| - 1].decl.group == name then [NewTest(regs[|regs| - 1].decl)] else [])
  }

  lemma {:induction false} FirstSeenProperties(names: seq<CString>)
    ensures Distinct(FirstSeen(names))
    ensures forall x :: x in FirstSeen(names) <==> x in names
  {
    if names != [] {
      var init := names[..|names| - 1];
      FirstSeenProperties(init);
      assert names == init + [names[|names| - 1]];
    }
  }

  lemma {:induction false} TestsDeclaredAbsent(regs: seq<Registration>, name: CString)
    requires name !in DeclaredGroups(regs)
    ensures TestsDeclared(regs, name) == []
  {
    if regs != [] {
      var init := regs[..|regs| - 1];
      assert DeclaredGroups(regs)[|regs| - 1] == regs[|regs| - 1].decl.group;
      assert forall k :: 0 <= k < |init| ==> DeclaredGroups(init)[k] == DeclaredGroups(regs)[k];
      TestsDeclaredAbsent(init, name);
    }
  }

  /** The shape a fully successful series of registrations gives the group list. */
  ghost predicate OrderedLike(groups: seq<Group>, regs: seq<Registration>)
  {
    && GroupNames(groups) == Reverse(FirstSeen(DeclaredGroups(regs)))
    && forall i :: 0 <= i < |groups| ==> groups[i].tests == TestsDeclared(regs, groups[i].name)
  }

  lemma DeclaredSnoc(init: seq<Registration>, reg: Registration, name: CString)
    ensures DeclaredGroups(init + [reg]) == DeclaredGroups(init) + [reg.decl.group]
    ensures TestsDeclared(init + [reg], name)
              == TestsDeclared(init, name) + (if reg.decl.group == name then [NewTest(reg.decl)] else [])
  {
    assert (init + [reg])[..|init|] == init;
  }

  lemma FirstSeenSnoc(names: seq<CString>, n: CString)
    ensures FirstSeen(names + [n]) == if n in FirstSeen(names) then FirstSeen(names) else FirstSeen(names) + [n]
  {
    assert (names + [n])[..|names|] == names;
  }

  lemma GroupNameAt(groups: seq<Group>, names: seq<CString>, k: nat)
    requires GroupNames(groups) == Reverse(names) && k < |groups|
    ensures |groups| == |names| && groups[k].name == names[|names| - 1 - k]
  {
    assert GroupNames(groups)[k] == groups[k].name;
    assert Reverse(names)[k] == names[|names| - 1 - k];
  }

  /** In an ordered list, the group names are exactly the declared ones, each once. */
  lemma OrderedNames(groups: seq<Group>, regs: seq<Registration>, n: CString)
    requires OrderedLike(groups, regs)
    ensures Lookup(groups, n).None? <==> n !in FirstSeen(DeclaredGroups(regs))
    ensures forall i, j :: 0 <= i < j < |groups| ==> groups[i].name != groups[j].name
  {
    var seen := FirstSeen(DeclaredGroups(regs));
    FirstSeenProperties(DeclaredGroups(regs));
    assert GroupNames(groups) == Reverse(seen);
    assert |groups| == |seen|;
    forall i, j | 0 <= i < j < |groups|
      ensures groups[i].name != groups[j].name
    {
      GroupNameAt(groups, seen, i);
      GroupNameAt(groups, seen, j);
    }
    if Lookup(groups, n).Some? {
      GroupNameAt(groups, seen, Lookup(groups, n).value);
    } else {
      forall k | 0 <= k < |seen|
        ensures seen[k] != n
      {
        GroupNameAt(groups, seen, |seen| - 1 - k);
      }
    }
  }

  /** Registering under a group name already seen appends to that group only. */
  lemma OrderStepSeen(prev: seq<Group>, init: seq<Registration>, reg: Registration, i: nat)
    requires OrderedLike(prev, init)
    requires reg.testAlloc && Lookup(prev, reg.decl.group) == Some(i)
    ensures OrderedLike(Registered(prev, reg), init + [reg])
  {
    var regs := init + [reg];
    var n := reg.decl.group;
    OrderedNames(prev, init, n);
    DeclaredSnoc(init, reg, n);
    FirstSeenSnoc(DeclaredGroups(init), n);
    var r := Registered(prev, reg);
    assert r == prev[i := AppendTest(prev[i], NewTest(reg.decl))];
    assert GroupNames(r) == GroupNames(prev);
    forall j | 0 <= j < |r|
      ensures r[j].tests == TestsDeclared(regs, r[j].name)
    {
      DeclaredSnoc(init, reg, r[j].name);
    }
  }

  /** Registering under a fresh group name puts a one-test group at the head. */
  lemma OrderStepFresh(prev: seq<Group>, init: seq<Registration>, reg: Registration)
    requires OrderedLike(prev, init)
    requires reg.groupAlloc && reg.testAlloc && |reg.decl.group| <= NameLengthMax
    requires Lookup(prev, reg.decl.group).None?
    ensures OrderedLike(Registered(prev, reg), init + [reg])
  {
    var regs := init + [reg];
    var n := reg.decl.group;
    var seen := FirstSeen(DeclaredGroups(init));
    OrderedNames(prev, init, n);
    DeclaredSnoc(init, reg, n);
    FirstSeenSnoc(DeclaredGroups(init), n);
    FirstSeenProperties(DeclaredGroups(init));
    TestsDeclaredAbsent(init, n);
    assert Reverse(seen + [n]) == [n] + Reverse(seen);
    var r := Registered(prev, reg);
    assert r == [AppendTest(NewGroup(n), NewTest(reg.decl))] + prev;
    assert GroupNames(r) == [n] + GroupNames(prev);
    forall j | 0 <= j < |r|
      ensures r[j].tests == TestsDeclared(regs, r[j].name)
    {
      DeclaredSnoc(init, reg, r[j].name);
      if j > 0 {
        assert r[j] == prev[j - 1];
      }
    }
  }

  /** When every allocation succeeds and every group name fits, groups end up in reverse
      order of first appearance and each group holds exactly the tests declared under
      its name, in the order their initialisers ran. */
  lemma {:induction false} RegistrationOrder(regs: seq<Registration>)
    requires forall k :: 0 <= k < |regs| ==>
      regs[k].groupAlloc && regs[k].testAlloc && |regs[k].decl.group| <= NameLengthMax
    ensures GroupNames(RegisterAll([], regs)) == Reverse(FirstSeen(DeclaredGroups(regs)))
    ensures forall i :: 0 <= i < |RegisterAll([], regs)| ==>
      RegisterAll([], regs)[i].tests == TestsDeclared(regs, RegisterAll([], regs)[i].name)
  {
    if regs != [] {
      var m := |regs| - 1;
      var init := regs[..m];
      RegistrationOrder(init);
      var prev := RegisterAll([], init);
      assert regs == init + [regs[m]];
      match Lookup(prev, regs[m].decl.group)
      case Some(i) => OrderStepSeen(prev, init, regs[m], i);
      case None => OrderStepFresh(prev, init, regs[m]);
    }
  }
}
