/** Measuring which registrations survived a run. */
module RegistrationSurvival {
  import opened Sequences
  import opened Text
  import opened Workload
  import opened RegistrationTables

  // ------------------------------------------------------------ what survived a run

  /** Expected shared-table lines that survived a completed run. */
  datatype Survival = Survival(expected: int, survived: int, dropped: int, duplicates: int)

  /** How many lines strip to `s`. */
  function Occurrences(lines: seq<string>, s: string): nat {
    if lines == [] then 0
    else (if Strip(lines[0]) == s then 1 else 0) + Occurrences(lines[1..], s)
  }

  /** The tables after a run, by module; a missing file reads as empty. */
  type Sources = map<string, seq<string>>

  function OccurrencesIn(sources: Sources, line: (string, string)): nat {
    if line.0 in sources then Occurrences(sources[line.0], line.1) else 0
  }

  function Survives(occurrences: nat): int {
    if occurrences > 0 then 1 else 0
  }

  function Excess(occurrences: nat): int {
    if occurrences > 1 then occurrences - 1 else 0
  }

  function Counted(sources: Sources): ((string, string)) -> nat {
    (line: (string, string)) => OccurrencesIn(sources, line)
  }

  function Sum(numbers: seq<int>): int {
    if numbers == [] then 0 else Sum(numbers[..|numbers| - 1]) + numbers[|numbers| - 1]
  }

  /** The measure, for the expected lines in some order. */
  function SurvivalOf(expected: seq<(string, string)>, sources: Sources): Survival {
    var counts := Map(Counted(sources), expected);
    Survival(|expected|, Sum(Map(Survives, counts)), |expected| - Sum(Map(Survives, counts)), Sum(Map(Excess, counts)))
  }

  method MeasureRegistrationSurvival(expected: seq<(string, string)>, sources: Sources) returns (r: Survival)
    ensures r == SurvivalOf(expected, sources)
  {
    var survived, duplicates := 0, 0;
    ghost var counts := Map(Counted(sources), expected);
    for k := 0 to |expected|
      invariant survived == Sum(Map(Survives, counts[..k]))
      invariant duplicates == Sum(Map(Excess, counts[..k]))
    {
      var occurrences: int := OccurrencesIn(sources, expected[k]);
      assert counts[k] == occurrences;
      TotalsOneMore(counts, k);
      survived := survived + if occurrences > 0 then 1 else 0;
      duplicates := duplicates + if occurrences - 1 > 0 then occurrences - 1 else 0;
    }
    assert counts[..|expected|] == counts;
    r := Survival(|expected|, survived, |expected| - survived, duplicates);
  }

  lemma TotalsOneMore(counts: seq<nat>, k: nat)
    requires k < |counts|
    ensures Sum(Map(Survives, counts[..k + 1])) == Sum(Map(Survives, counts[..k])) + if counts[k] > 0 then 1 else 0
    ensures Sum(Map(Excess, counts[..k + 1])) == Sum(Map(Excess, counts[..k])) + if counts[k] > 1 then counts[k] - 1 else 0
  {
    SumOneMore(Survives, counts, k);
    SumOneMore(Excess, counts, k);
  }

  lemma SumOneMore<A>(f: A -> int, items: seq<A>, k: nat)
    requires k < |items|
    ensures Sum(Map(f, items[..k + 1])) == Sum(Map(f, items[..k])) + f(items[k])
  {
    assert items[..k + 1][..k] == items[..k];
    MapLast(f, items[..k + 1]);
  }

  lemma {:induction false} SumConcat(a: seq<int>, b: seq<int>)
    ensures Sum(a + b) == Sum(a) + Sum(b)
  {
    if b == [] {
      assert a + b == a;
    } else {
      assert (a + b)[..|a + b| - 1] == a + b[..|b| - 1];
      SumConcat(a, b[..|b| - 1]);
    }
  }

  lemma {:induction false} SumOfPermutation(a: seq<int>, b: seq<int>)
    requires multiset(a) == multiset(b)
    ensures Sum(a) == Sum(b)
    decreases |a|
  {
    assert |multiset(a)| == |a| && |multiset(b)| == |b|;
    if a != [] {
      assert a == [a[0]] + a[1..];
      assert a[0] in multiset(a);
      assert a[0] in b;
      var before, after := SplitAt(b, a[0]);
      assert multiset(a) == multiset{a[0]} + multiset(a[1..]);
      assert multiset(a[1..]) == multiset(a) - multiset{a[0]};
      assert multiset(before + after) == multiset(b) - multiset{a[0]};
      SumOfPermutation(a[1..], before + after);
      SumConcat([a[0]], a[1..]);
      SumConcat(before + [a[0]], after);
      SumConcat(before, [a[0]]);
      SumConcat(before, after);
    }
  }

  /** The measure does not depend on the order in which the expected lines are met. */
  lemma MeasureIgnoresOrder(a: seq<(string, string)>, b: seq<(string, string)>, sources: Sources)
    requires multiset(a) == multiset(b)
    ensures SurvivalOf(a, sources) == SurvivalOf(b, sources)
  {
    assert |multiset(a)| == |a| && |multiset(b)| == |b|;
    MapOfPermutation(Counted(sources), a, b);
    var c, d := Map(Counted(sources), a), Map(Counted(sources), b);
    MapOfPermutation(Survives, c, d);
    MapOfPermutation(Excess, c, d);
    SumOfPermutation(Map(Survives, c), Map(Survives, d));
    SumOfPermutation(Map(Excess, c), Map(Excess, d));
  }

  lemma {:induction false} SumIsZero(numbers: seq<int>)
    requires forall k :: 0 <= k < |numbers| ==> numbers[k] >= 0
    ensures Sum(numbers) >= 0
    ensures Sum(numbers) == 0 <==> forall k :: 0 <= k < |numbers| ==> numbers[k] == 0
  {
    if numbers != [] {
      var n := |numbers| - 1;
      SumIsZero(numbers[..n]);
      assert forall k :: 0 <= k < n ==> numbers[..n][k] == numbers[k];
      assert (forall k :: 0 <= k < |numbers| ==> numbers[k] == 0) ==> numbers[n] == 0;
    }
  }

  lemma {:induction false} SumIsFull(numbers: seq<int>)
    requires forall k :: 0 <= k < |numbers| ==> numbers[k] <= 1
    ensures Sum(numbers) <= |numbers|
    ensures Sum(numbers) == |numbers| <==> forall k :: 0 <= k < |numbers| ==> numbers[k] == 1
  {
    if numbers != [] {
      var n := |numbers| - 1;
      SumIsFull(numbers[..n]);
      assert forall k :: 0 <= k < n ==> numbers[..n][k] == numbers[k];
      assert (forall k :: 0 <= k < |numbers| ==> numbers[k] == 1) ==> numbers[n] == 1;
    }
  }

  lemma AllSurvive(counts: seq<nat>)
    ensures Sum(Map(Survives, counts)) == |counts| <==> forall k :: 0 <= k < |counts| ==> counts[k] >= 1
  {
    var survives := Map(Survives, counts);
    SumIsFull(survives);
    assert forall k :: 0 <= k < |counts| ==> (survives[k] == 1 <==> counts[k] >= 1);
  }

  lemma NoneIsTwice(counts: seq<nat>)
    ensures Sum(Map(Excess, counts)) == 0 <==> forall k :: 0 <= k < |counts| ==> counts[k] <= 1
  {
    var excess := Map(Excess, counts);
    SumIsZero(excess);
    assert forall k :: 0 <= k < |counts| ==> (excess[k] == 0 <==> counts[k] <= 1);
  }

  ghost function StripsTo(s: string): string -> bool {
    (line: string) => Strip(line) == s
  }

  /** How often an expected line is in its table; a missing table holds nothing. */
  ghost function TimesThere(sources: Sources, line: (string, string)): nat {
    if line.0 in sources.Keys then |Filter(sources[line.0], StripsTo(line.1))| else 0
  }

  lemma {:induction false} OccurrencesAre(lines: seq<string>, s: string)
    ensures Occurrences(lines, s) == |Filter(lines, StripsTo(s))|
  {
    if lines != [] {
      OccurrencesAre(lines[1..], s);
    }
  }

  ghost function IsPresent(sources: Sources): ((string, string)) -> bool {
    (line: (string, string)) => TimesThere(sources, line) >= 1
  }

  ghost function IsAbsent(sources: Sources): ((string, string)) -> bool {
    (line: (string, string)) => TimesThere(sources, line) == 0
  }

  ghost function Times(sources: Sources): ((string, string)) -> int {
    (line: (string, string)) => TimesThere(sources, line)
  }

  /** The survivors are counted once, and an expected line that is there more than once is counted as
      often again as it is there too often. */
  ghost predicate MeasureIs(expected: seq<(string, string)>, sources: Sources, r: Survival) {
    && r.expected == |expected|
    && r.survived == |Filter(expected, IsPresent(sources))|
    && r.dropped == |Filter(expected, IsAbsent(sources))|
    && r.survived + r.duplicates == Sum(Map(Times(sources), expected))
  }

  lemma CountedTimes(sources: Sources, line: (string, string))
    ensures Counted(sources)(line) == TimesThere(sources, line)
  {
    if line.0 in sources {
      OccurrencesAre(sources[line.0], line.1);
    }
  }

  lemma SumLast<A>(f: A -> int, items: seq<A>, x: A)
    ensures Sum(Map(f, items + [x])) == Sum(Map(f, items)) + f(x)
  {
    MapAppend(f, items, x);
  }

  lemma SumOfCountsLast(f: nat -> int, expected: seq<(string, string)>, line: (string, string), sources: Sources)
    ensures Sum(Map(f, Map(Counted(sources), expected + [line]))) ==
      Sum(Map(f, Map(Counted(sources), expected))) + f(TimesThere(sources, line))
  {
    CountedTimes(sources, line);
    MapAppend(Counted(sources), expected, line);
    SumLast(f, Map(Counted(sources), expected), Counted(sources)(line));
  }

  lemma OneMoreSurvivor(front: seq<(string, string)>, line: (string, string), sources: Sources)
    requires Sum(Map(Survives, Map(Counted(sources), front))) == |Filter(front, IsPresent(sources))|
    ensures Sum(Map(Survives, Map(Counted(sources), front + [line]))) == |Filter(front + [line], IsPresent(sources))|
  {
    SumOfCountsLast(Survives, front, line, sources);
    FilterOneMore(front, line, IsPresent(sources));
  }

  lemma {:induction false} SurvivorsAre(expected: seq<(string, string)>, sources: Sources)
    ensures Sum(Map(Survives, Map(Counted(sources), expected))) == |Filter(expected, IsPresent(sources))|
  {
    if expected != [] {
      var n := |expected| - 1;
      SurvivorsAre(expected[..n], sources);
      OneMoreSurvivor(expected[..n], expected[n], sources);
      assert expected == expected[..n] + [expected[n]];
    }
  }

  /** Survivors and duplicates together are the occurrences. */
  ghost predicate CountsAdd(expected: seq<(string, string)>, sources: Sources) {
    Sum(Map(Survives, Map(Counted(sources), expected))) + Sum(Map(Excess, Map(Counted(sources), expected))) ==
    Sum(Map(Times(sources), expected))
  }

  lemma OneMoreCount(front: seq<(string, string)>, line: (string, string), sources: Sources)
    requires CountsAdd(front, sources)
    ensures CountsAdd(front + [line], sources)
  {
    SumOfCountsLast(Survives, front, line, sources);
    SumOfCountsLast(Excess, front, line, sources);
    SumLast(Times(sources), front, line);
  }

  lemma {:induction false} CountsAre(expected: seq<(string, string)>, sources: Sources)
    ensures CountsAdd(expected, sources)
  {
    if expected != [] {
      var n := |expected| - 1;
      CountsAre(expected[..n], sources);
      OneMoreCount(expected[..n], expected[n], sources);
      assert expected == expected[..n] + [expected[n]];
    }
  }

  /** The measure of a run, line by line. */
  lemma MeasureExactly(expected: seq<(string, string)>, sources: Sources)
    ensures MeasureIs(expected, sources, SurvivalOf(expected, sources))
  {
    CountsAre(expected, sources);
    SurvivorsAre(expected, sources);
    FilterSplits(expected, IsPresent(sources), IsAbsent(sources));
  }

  /** Nothing is reported dropped exactly when every expected line is in its table, and nothing
      duplicated exactly when none is there twice. */
  lemma SurvivalExactly(expected: seq<(string, string)>, sources: Sources)
    ensures SurvivalOf(expected, sources).dropped == 0 <==> forall e :: e in expected ==> OccurrencesIn(sources, e) >= 1
    ensures SurvivalOf(expected, sources).duplicates == 0 <==> forall e :: e in expected ==> OccurrencesIn(sources, e) <= 1
  {
    var counts := Map(Counted(sources), expected);
    AllSurvive(counts);
    NoneIsTwice(counts);
    forall k | 0 <= k < |expected| ensures counts[k] == OccurrencesIn(sources, expected[k]) {
    }
  }

  lemma OneLineCounts(line: string, s: string)
    requires Strip(line) == s ==> IsRegister(line)
    ensures multiset(Registered([line]))[s] == if Strip(line) == s then 1 else 0
  {
    if IsRegister(line) {
      RegisteredOne(line);
    } else {
      RegisteredNone(line);
    }
  }

  lemma RegisteredCounts(lines: seq<string>, s: string)
    requires lines != []
    ensures multiset(Registered(lines))[s] == multiset(Registered([lines[0]]))[s] + multiset(Registered(lines[1..]))[s]
  {
    RegisteredHalves(lines, 1);
    assert lines[..1] == [lines[0]];
    MultisetOfBoth(Registered([lines[0]]), Registered(lines[1..]), s);
  }

  lemma MultisetOfBoth(a: seq<string>, b: seq<string>, s: string)
    ensures multiset(a + b)[s] == multiset(a)[s] + multiset(b)[s]
  {
  }

  lemma {:induction false} OccurrencesAreRegistered(lines: seq<string>, s: string)
    requires forall k :: 0 <= k < |lines| && Strip(lines[k]) == s ==> IsRegister(lines[k])
    ensures Occurrences(lines, s) == multiset(Registered(lines))[s]
  {
    if lines == [] {
      NoneRegistered(lines);
    } else {
      OccurrencesAreRegistered(lines[1..], s);
      OneLineCounts(lines[0], s);
      RegisteredCounts(lines, s);
    }
  }

  function RegistrationsOf(op: Operation): seq<Registration> {
    op.registrations
  }

  function Targets(table: string): Registration -> bool {
    (r: Registration) => r.module_ == table
  }

  function LineOf(r: Registration): string {
    r.line
  }

  /** The registration lines some operations add to one table, one after the other. */
  function LinesFor(operations: seq<Operation>, table: string): seq<string> {
    Map(LineOf, Filter(Flatten(Map(RegistrationsOf, operations)), Targets(table)))
  }

  ghost predicate Registers(operations: seq<Operation>, r: Registration) {
    exists op :: op in operations && r in op.registrations
  }

  lemma LinesForMember(operations: seq<Operation>, table: string, r: Registration)
    requires Registers(operations, r) && r.module_ == table
    ensures r.line in LinesFor(operations, table)
  {
    var op :| op in operations && r in op.registrations;
    var k :| 0 <= k < |operations| && operations[k] == op;
    var parts := Map(RegistrationsOf, operations);
    assert r in parts[k];
    FlattenMember(parts, r);
    var filtered := Filter(Flatten(parts), Targets(table));
    var i :| 0 <= i < |filtered| && filtered[i] == r;
    assert Map(LineOf, filtered)[i] == r.line;
  }

  lemma LinesForOnly(operations: seq<Operation>, table: string, line: string)
    requires line in LinesFor(operations, table)
    ensures exists r :: Registers(operations, r) && r.line == line
  {
    var parts := Map(RegistrationsOf, operations);
    var filtered := Filter(Flatten(parts), Targets(table));
    var i :| 0 <= i < |filtered| && LineOf(filtered[i]) == line;
    assert filtered[i] in filtered;
    FlattenMember(parts, filtered[i]);
    var k :| 0 <= k < |parts| && filtered[i] in parts[k];
    assert operations[k] in operations;
    assert Registers(operations, filtered[i]);
  }

  /** The lines a run is measured against. */
  ghost predicate ExpectedOf(operations: seq<Operation>, expected: seq<(string, string)>) {
    forall e :: e in expected ==> exists r :: Registers(operations, r) && e == (r.module_, Strip(r.line))
  }

  ghost predicate RegistersOnly(operations: seq<Operation>) {
    forall r :: Registers(operations, r) ==> OneRegistration(r.line)
  }

  lemma AddedOnce(lines: seq<string>, registrations: seq<string>, registration: string)
    requires AllRegistrations(registrations) && registration in registrations
    requires multiset(Registered(lines))[Strip(registration)] <= 1
    ensures Occurrences(AddAll(lines, registrations), Strip(registration)) == 1
  {
    var s := Strip(registration);
    var k :| 0 <= k < |registrations| && registrations[k] == registration;
    assert OneRegistration(registrations[k]);
    assert Map(Strip, registrations)[k] == s;
    AddAllCounts(lines, registrations, s);
    assert s in Registered(lines) <==> s in multiset(Registered(lines));
    OccurrencesAreRegistered(AddAll(lines, registrations), s);
  }

  /** Operations applied to tables that hold no expected line twice, in whatever order: everything
      expected survives, once. */
  lemma {:induction false} RunSurvives(operations: seq<Operation>, applied: seq<Operation>, expected: seq<(string, string)>,
                    initial: Sources, sources: Sources)
    requires multiset(applied) == multiset(operations)
    requires ExpectedOf(operations, expected) && RegistersOnly(operations)
    requires forall e :: e in expected ==> e.0 in initial && multiset(Registered(initial[e.0]))[e.1] <= 1
    requires forall e :: e in expected ==> e.0 in sources && sources[e.0] == AddAll(initial[e.0], LinesFor(applied, e.0))
    ensures SurvivalOf(expected, sources).dropped == 0 && SurvivalOf(expected, sources).duplicates == 0
  {
    SurvivalExactly(expected, sources);
    forall e | e in expected ensures OccurrencesIn(sources, e) == 1 {
      var r :| Registers(operations, r) && e == (r.module_, Strip(r.line));
      SameRegisters(operations, applied, r);
      LinesForMember(applied, e.0, r);
      AppliedAreRegistrations(operations, applied, e.0);
      AddedOnce(initial[e.0], LinesFor(applied, e.0), r.line);
    }
  }

  lemma SameRegisters(operations: seq<Operation>, applied: seq<Operation>, r: Registration)
    requires multiset(applied) == multiset(operations)
    ensures Registers(operations, r) <==> Registers(applied, r)
  {
    forall op ensures op in operations <==> op in applied {
      assert op in operations <==> op in multiset(operations);
      assert op in applied <==> op in multiset(applied);
    }
  }

  lemma AppliedAreRegistrations(operations: seq<Operation>, applied: seq<Operation>, table: string)
    requires multiset(applied) == multiset(operations) && RegistersOnly(operations)
    ensures AllRegistrations(LinesFor(applied, table))
  {
    var lines := LinesFor(applied, table);
    forall k | 0 <= k < |lines| ensures OneRegistration(lines[k]) {
      LinesForOnly(applied, table, lines[k]);
      var r :| Registers(applied, r) && r.line == lines[k];
      SameRegisters(operations, applied, r);
    }
  }

  lemma DistinctCount(s: seq<string>, x: string)
    requires Distinct(s) && x in s
    ensures multiset(s)[x] == 1
  {
    var k :| 0 <= k < |s| && s[k] == x;
    assert s == s[..k] + [x] + s[k + 1..];
    assert x !in s[..k] && x !in s[k + 1..];
  }

  /** Tables merged by union: everything expected that some version registers survives, once. */
  lemma UnionSurvives(expected: seq<(string, string)>, versions: map<string, seq<seq<string>>>, sources: Sources)
    requires forall e :: e in expected ==> e.0 in versions && AreLines(versions[e.0])
    requires forall e :: e in expected ==> e.0 in sources && sources[e.0] == Union(versions[e.0])
    requires forall e :: e in expected ==> e.1 in Registered(Flatten(versions[e.0]))
    ensures SurvivalOf(expected, sources).dropped == 0 && SurvivalOf(expected, sources).duplicates == 0
  {
    SurvivalExactly(expected, sources);
    forall e | e in expected ensures OccurrencesIn(sources, e) == 1 {
      var registered := Registered(Flatten(versions[e.0]));
      UnionIsExact(versions[e.0]);
      RegisteredAreRegistrations(Flatten(versions[e.0]), e.1);
      OccurrencesAreRegistered(sources[e.0], e.1);
      DistinctCount(Dedup(registered), e.1);
    }
  }
}
