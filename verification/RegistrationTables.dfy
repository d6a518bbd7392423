/** Appending registrations to a shared table, merging table versions, and measuring what
    survived. A table's source is the list of its lines. */
module RegistrationTables {
  import opened Sequences
  import opened Text

  predicate IsRegister(line: string) {
    StartsWith(Strip(line), "register(")
  }

  predicate IsStub(line: string) {
    Strip(line) == "raise NotImplementedError"
  }

  predicate IsReturn(line: string) {
    StartsWith(Strip(line), "return ")
  }

  /** The registrations in a table, in order. */
  function Registered(lines: seq<string>): seq<string> {
    Map(Strip, Filter(lines, IsRegister))
  }

  /** The index of the first line that satisfies `p`, or the number of lines. */
  function FirstIndex(lines: seq<string>, p: string -> bool): (i: nat)
    ensures i <= |lines|
  {
    if lines == [] || p(lines[0]) then 0 else 1 + FirstIndex(lines[1..], p)
  }

  /** The number of lines up to and including the last that satisfies `p`. */
  function LastIndex(lines: seq<string>, p: string -> bool): (n: nat)
    ensures n <= |lines|
  {
    if lines == [] || p(lines[|lines| - 1]) then |lines| else LastIndex(lines[..|lines| - 1], p)
  }

  lemma {:induction false} FirstIndexFacts(lines: seq<string>, p: string -> bool)
    ensures FirstIndex(lines, p) < |lines| ==> p(lines[FirstIndex(lines, p)])
    ensures forall k :: 0 <= k < FirstIndex(lines, p) ==> !p(lines[k])
  {
    if lines != [] && !p(lines[0]) {
      FirstIndexFacts(lines[1..], p);
    }
  }

  lemma {:induction false} LastIndexFacts(lines: seq<string>, p: string -> bool)
    ensures LastIndex(lines, p) > 0 ==> p(lines[LastIndex(lines, p) - 1])
    ensures forall k :: LastIndex(lines, p) <= k < |lines| ==> !p(lines[k])
  {
    if lines != [] && !p(lines[|lines| - 1]) {
      LastIndexFacts(lines[..|lines| - 1], p);
    }
  }

  /** Where a new line goes when there is no stub to replace: after the last registration, else
      before the last `return`, else at the end. */
  function InsertionPoint(lines: seq<string>): (at: nat)
    ensures at <= |lines|
  {
    var registered := LastIndex(lines, IsRegister);
    var returned := LastIndex(lines, IsReturn);
    if registered > 0 then registered
    else if returned > 0 then returned - 1
    else |lines|
  }

  function Indent(s: string): (r: string)
    ensures |r| == 4 + |s| && r[4..] == s
    ensures forall i :: 0 <= i < 4 ==> r[i] == ' '
  {
    "    " + s
  }

  /** The lines of the inserted text. */
  function NewLines(registration: string): (lines: seq<string>)
    ensures lines != []
  {
    SplitLines(Indent(Strip(registration)))
  }

  /** The lines with those from `at` up to `until` replaced by `more`. */
  function Splice(lines: seq<string>, at: nat, until: nat, more: seq<string>): seq<string>
    requires at <= until <= |lines|
  {
    lines[..at] + more + lines[until..]
  }

  /** The table with `inserted` in place of the stub, or at `point` when there is no stub. */
  function Placed(lines: seq<string>, stub: nat, point: nat, inserted: seq<string>): seq<string>
    requires stub <= |lines| && point <= |lines|
  {
    if stub < |lines| then Splice(lines, stub, stub + 1, inserted) else Splice(lines, point, point, inserted)
  }

  function Added(lines: seq<string>, registration: string): seq<string> {
    if Strip(registration) in Registered(lines) then lines
    else Placed(lines, FirstIndex(lines, IsStub), InsertionPoint(lines), NewLines(registration))
  }

  // ------------------------------------------------------------ where a line goes, in plain terms

  ghost predicate Registers(line: string) {
    "register(" <= Strip(line)
  }

  ghost predicate Returns(line: string) {
    "return " <= Strip(line)
  }

  ghost predicate StubAt(lines: seq<string>, k: int) {
    0 <= k < |lines| && Strip(lines[k]) == "raise NotImplementedError"
  }

  ghost predicate FirstStubAt(lines: seq<string>, k: int) {
    StubAt(lines, k) && forall j :: j < k ==> !StubAt(lines, j)
  }

  ghost predicate LastRegisterAt(lines: seq<string>, k: int) {
    0 <= k < |lines| && Registers(lines[k]) && forall j :: k < j < |lines| ==> !Registers(lines[j])
  }

  ghost predicate LastReturnAt(lines: seq<string>, k: int) {
    0 <= k < |lines| && Returns(lines[k]) && forall j :: k < j < |lines| ==> !Returns(lines[j])
  }

  ghost predicate IsThere(lines: seq<string>, registration: string) {
    exists k :: 0 <= k < |lines| && Registers(lines[k]) && Strip(lines[k]) == Strip(registration)
  }

  ghost predicate HasStub(lines: seq<string>) {
    exists k :: StubAt(lines, k)
  }

  ghost predicate HasRegister(lines: seq<string>) {
    exists k :: 0 <= k < |lines| && Registers(lines[k])
  }

  ghost predicate HasReturn(lines: seq<string>) {
    exists k :: 0 <= k < |lines| && Returns(lines[k])
  }

  ghost predicate ForFirstStub(lines: seq<string>, added: seq<string>, later: seq<string>) {
    exists k :: FirstStubAt(lines, k) && later == lines[..k] + added + lines[k + 1..]
  }

  ghost predicate BehindLastRegister(lines: seq<string>, added: seq<string>, later: seq<string>) {
    exists k :: LastRegisterAt(lines, k) && later == lines[..k + 1] + added + lines[k + 1..]
  }

  ghost predicate BeforeLastReturn(lines: seq<string>, added: seq<string>, later: seq<string>) {
    exists k :: LastReturnAt(lines, k) && later == lines[..k] + added + lines[k..]
  }

  /** The new lines replace the first stub; without a stub they come after the last registration,
      without one before the last `return`, and without that at the end. */
  ghost predicate PutIn(lines: seq<string>, added: seq<string>, later: seq<string>) {
    if HasStub(lines) then ForFirstStub(lines, added, later)
    else if HasRegister(lines) then BehindLastRegister(lines, added, later)
    else if HasReturn(lines) then BeforeLastReturn(lines, added, later)
    else later == lines + added
  }

  /** A registration that is there changes nothing; any other is put in, indented by four spaces. */
  ghost predicate Adds(lines: seq<string>, registration: string, later: seq<string>) {
    if IsThere(lines, registration) then later == lines
    else PutIn(lines, SplitLines("    " + Strip(registration)), later)
  }

  lemma ThereExactly(lines: seq<string>, registration: string)
    ensures Strip(registration) in Registered(lines) <==> IsThere(lines, registration)
  {
    var registers := Filter(lines, IsRegister);
    if Strip(registration) in Registered(lines) {
      var k :| 0 <= k < |registers| && Strip(registers[k]) == Strip(registration);
      assert registers[k] in registers;
      var j :| 0 <= j < |lines| && lines[j] == registers[k];
      assert Registers(lines[j]);
    }
    if k :| 0 <= k < |lines| && Registers(lines[k]) && Strip(lines[k]) == Strip(registration) {
      assert lines[k] in registers;
      var j :| 0 <= j < |registers| && registers[j] == lines[k];
      assert Registered(lines)[j] == Strip(registration);
    }
  }

  lemma PlacedAtStub(lines: seq<string>, added: seq<string>)
    requires FirstIndex(lines, IsStub) < |lines|
    ensures HasStub(lines)
    ensures ForFirstStub(lines, added, Placed(lines, FirstIndex(lines, IsStub), InsertionPoint(lines), added))
  {
    var at := FirstIndex(lines, IsStub);
    FirstIndexFacts(lines, IsStub);
    forall j | j < at ensures !StubAt(lines, j) {
      assert 0 <= j ==> !IsStub(lines[j]);
    }
    assert FirstStubAt(lines, at);
  }

  lemma StubFound(lines: seq<string>)
    ensures HasStub(lines) ==> FirstIndex(lines, IsStub) < |lines|
  {
    FirstIndexFacts(lines, IsStub);
    if k :| StubAt(lines, k) {
      assert IsStub(lines[k]);
    }
  }

  lemma LastRegisterFound(lines: seq<string>)
    ensures LastIndex(lines, IsRegister) > 0 <==> HasRegister(lines)
    ensures LastIndex(lines, IsRegister) > 0 ==> LastRegisterAt(lines, LastIndex(lines, IsRegister) - 1)
  {
    LastIndexFacts(lines, IsRegister);
    forall k | 0 <= k < |lines| ensures IsRegister(lines[k]) <==> Registers(lines[k]) {
    }
  }

  lemma LastReturnFound(lines: seq<string>)
    ensures LastIndex(lines, IsReturn) > 0 <==> HasReturn(lines)
    ensures LastIndex(lines, IsReturn) > 0 ==> LastReturnAt(lines, LastIndex(lines, IsReturn) - 1)
  {
    LastIndexFacts(lines, IsReturn);
    forall k | 0 <= k < |lines| ensures IsReturn(lines[k]) <==> Returns(lines[k]) {
    }
  }

  lemma PlacedAtPoint(lines: seq<string>, added: seq<string>)
    requires !HasStub(lines)
    ensures PutIn(lines, added, Splice(lines, InsertionPoint(lines), InsertionPoint(lines), added))
  {
    LastRegisterFound(lines);
    LastReturnFound(lines);
    assert lines[..|lines|] + added + lines[|lines|..] == lines + added;
  }

  lemma AddedExactly(lines: seq<string>, registration: string)
    ensures Adds(lines, registration, Added(lines, registration))
  {
    ThereExactly(lines, registration);
    StubFound(lines);
    if FirstIndex(lines, IsStub) < |lines| {
      PlacedAtStub(lines, NewLines(registration));
    } else {
      PlacedAtPoint(lines, NewLines(registration));
    }
  }

  /** A registration that is there leaves the table as it is. Any other on one line replaces the stub
      or is put between two lines, and is registered besides what was. */
  method AddRegistration(source: seq<string>, registration: string) returns (lines: seq<string>)
    ensures lines == Added(source, registration)
    ensures Adds(source, registration, lines)
    ensures Strip(registration) in Registered(source) ==> lines == source
    ensures OneRegistration(registration) && Strip(registration) !in Registered(source) ==>
      && (exists at, until :: Inserted(source, lines, Indent(Strip(registration)), at, until))
      && (exists before, after ::
        Registered(source) == before + after && Registered(lines) == before + [Strip(registration)] + after)
  {
    AddedExactly(source, registration);
    var existing := Registered(source);
    if Strip(registration) in existing {
      return source;
    }
    lines := Place(source, NewLines(registration));
    if OneRegistration(registration) {
      ghost var at, until := AddingInsertsOneLine(source, registration);
      ghost var before, after := AddingKeepsRegistrations(source, registration);
    }
  }

  method Place(source: seq<string>, inserted: seq<string>) returns (lines: seq<string>)
    ensures lines == Placed(source, FirstIndex(source, IsStub), InsertionPoint(source), inserted)
  {
    lines := source;
    var stub := FirstIndex(lines, IsStub);
    if stub < |lines| {
      lines := Splice(lines, stub, stub + 1, inserted);
      return;
    }
    var at := InsertionPoint(lines);
    lines := Splice(lines, at, at, inserted);
  }

  // ------------------------------------------------------------ one registration

  /** A registration on one line, as every workload defines them. */
  predicate OneRegistration(registration: string) {
    IsRegister(registration) && Unbroken(Strip(registration))
  }

  lemma {:induction false} StripLeftIndent(s: string, n: nat)
    requires n <= |s| && forall i :: 0 <= i < n ==> IsSpace(s[i])
    requires n == |s| || !IsSpace(s[n])
    ensures StripLeft(s, IsSpace) == s[n..]
  {
    if n > 0 {
      StripLeftIndent(s[1..], n - 1);
      assert s[1..][n - 1..] == s[n..];
    }
  }

  lemma StripIndented(s: string)
    ensures Strip(Indent(Strip(s))) == Strip(s)
  {
    StripLeftIndent(Indent(Strip(s)), 4);
    StripOfStripped(Strip(s));
  }

  lemma OneNewLine(registration: string)
    requires Unbroken(Strip(registration))
    ensures NewLines(registration) == [Indent(Strip(registration))]
    ensures Strip(NewLines(registration)[0]) == Strip(registration)
  {
    var line, s := Indent(Strip(registration)), Strip(registration);
    forall i | 0 <= i < |line| ensures !IsBreak(line[i]) {
      if i >= 4 {
        assert line[i] == s[i - 4];
      }
    }
    UnbrokenIsOneLine(line);
    StripIndented(registration);
  }

  lemma RegisteredConcat(a: seq<string>, b: seq<string>)
    ensures Registered(a + b) == Registered(a) + Registered(b)
  {
    FilterConcat(a, b, IsRegister);
    MapConcat(Strip, Filter(a, IsRegister), Filter(b, IsRegister));
  }

  lemma {:induction false} NoneRegistered(lines: seq<string>)
    requires forall k :: 0 <= k < |lines| ==> !IsRegister(lines[k])
    ensures Registered(lines) == []
  {
    if lines != [] {
      NoneRegistered(lines[1..]);
    }
  }

  lemma RegisteredOne(line: string)
    requires IsRegister(line)
    ensures Registered([line]) == [Strip(line)]
  {
  }

  /** `later` is `lines` with `line` put in place of the lines from `at` up to `until`: of the
      stub, or of nothing. */
  ghost predicate Inserted(lines: seq<string>, later: seq<string>, line: string, at: nat, until: nat) {
    && at <= until <= |lines|
    && later == Splice(lines, at, until, [line])
    && (until == at || (until == at + 1 && IsStub(lines[at])))
  }

  /** What is placed replaces the first stub, or is put between two lines. */
  lemma PlacedSplices(lines: seq<string>, stub: nat, point: nat, inserted: seq<string>) returns (at: nat, until: nat)
    requires stub <= |lines| && point <= |lines|
    ensures at <= until <= |lines| && Placed(lines, stub, point, inserted) == Splice(lines, at, until, inserted)
    ensures if stub < |lines| then at == stub && until == at + 1 else at == until == point
  {
    if stub < |lines| {
      at, until := stub, stub + 1;
    } else {
      at, until := point, point;
    }
  }

  /** A new registration changes one place: it replaces the stub or is put between two lines. */
  lemma {:induction false} AddingInsertsOneLine(lines: seq<string>, registration: string) returns (at: nat, until: nat)
    requires OneRegistration(registration) && Strip(registration) !in Registered(lines)
    ensures Inserted(lines, Added(lines, registration), Indent(Strip(registration)), at, until)
    ensures FirstIndex(lines, IsStub) == |lines| ==> at == until == InsertionPoint(lines)
    ensures FirstIndex(lines, IsStub) < |lines| ==> at == FirstIndex(lines, IsStub) && until == at + 1
  {
    OneNewLine(registration);
    FirstIndexFacts(lines, IsStub);
    at, until := PlacedSplices(lines, FirstIndex(lines, IsStub), InsertionPoint(lines), NewLines(registration));
  }

  lemma RegisteredSplice(lines: seq<string>, at: nat, until: nat, line: string)
    requires at <= until <= |lines| && IsRegister(line)
    ensures Registered(Splice(lines, at, until, [line])) ==
      Registered(lines[..at]) + [Strip(line)] + Registered(lines[until..])
  {
    RegisteredConcat(lines[..at] + [line], lines[until..]);
    RegisteredConcat(lines[..at], [line]);
    RegisteredOne(line);
  }

  lemma RegisteredParts(lines: seq<string>, at: nat, until: nat)
    requires at <= until <= |lines|
    ensures Registered(lines) == Registered(lines[..at]) + Registered(lines[at..until]) + Registered(lines[until..])
  {
    assert lines == lines[..at] + lines[at..until] + lines[until..];
    RegisteredConcat(lines[..at] + lines[at..until], lines[until..]);
    RegisteredConcat(lines[..at], lines[at..until]);
  }

  lemma StubsDoNotRegister(lines: seq<string>, at: nat, until: nat)
    requires at <= until <= |lines| && (until == at || (until == at + 1 && IsStub(lines[at])))
    ensures Registered(lines[at..until]) == []
  {
    if until == at {
      assert lines[at..until] == [];
    } else {
      StubIsNoRegistration(lines[at]);
      RegisteredNone(lines[at]);
      assert lines[at..until] == [lines[at]];
    }
  }

  lemma RegisteredNone(line: string)
    requires !IsRegister(line)
    ensures Registered([line]) == []
  {
  }

  lemma StubIsNoRegistration(line: string)
    requires IsStub(line)
    ensures !IsRegister(line)
  {
    assert Strip(line)[1] == 'a';
  }

  /** An insertion keeps every registration, in order, and adds its own. */
  lemma InsertedRegisters(lines: seq<string>, later: seq<string>, line: string, at: nat, until: nat)
    returns (before: seq<string>, after: seq<string>)
    requires Inserted(lines, later, line, at, until) && IsRegister(line)
    ensures Registered(lines) == before + after
    ensures Registered(later) == before + [Strip(line)] + after
  {
    before, after := Registered(lines[..at]), Registered(lines[until..]);
    RegisteredSplice(lines, at, until, line);
    RegisteredParts(lines, at, until);
    StubsDoNotRegister(lines, at, until);
    assert before + [] == before;
  }

  /** Every existing registration stays, in order, and exactly the new one is there besides. */
  lemma {:induction false} AddingKeepsRegistrations(lines: seq<string>, registration: string) returns (before: seq<string>, after: seq<string>)
    requires OneRegistration(registration) && Strip(registration) !in Registered(lines)
    ensures Registered(lines) == before + after
    ensures Registered(Added(lines, registration)) == before + [Strip(registration)] + after
  {
    var at, until := AddingInsertsOneLine(lines, registration);
    StripIndented(registration);
    before, after := InsertedRegisters(lines, Added(lines, registration), Indent(Strip(registration)), at, until);
  }

  /** Registrations start with `register(` and are one line when the table's lines are. */
  lemma RegisteredAreRegistrations(lines: seq<string>, s: string)
    requires s in Registered(lines)
    ensures StartsWith(s, "register(")
    ensures (forall l :: l in lines ==> Unbroken(l)) ==> Unbroken(s)
  {
    var registers := Filter(lines, IsRegister);
    var k :| 0 <= k < |registers| && Strip(registers[k]) == s;
    assert registers[k] in registers;
    if forall l :: l in lines ==> Unbroken(l) {
      StripUnbroken(registers[k]);
    }
  }

  // ------------------------------------------------------------ idempotence

  ghost predicate Idempotent(registration: string) {
    forall lines :: Added(Added(lines, registration), registration) == Added(lines, registration)
  }

  lemma PresentIsUnchanged(lines: seq<string>, registration: string)
    requires Strip(registration) in Registered(lines)
    ensures Added(lines, registration) == lines
  {
  }

  lemma AddedIsPresent(lines: seq<string>, registration: string)
    requires OneRegistration(registration)
    ensures Strip(registration) in Registered(Added(lines, registration))
  {
    var s := Strip(registration);
    if s in Registered(lines) {
      PresentIsUnchanged(lines, registration);
    } else {
      var before, after := AddingKeepsRegistrations(lines, registration);
      assert (before + [s] + after)[|before|] == s;
    }
  }

  lemma RegistrationIsAddedOnce(lines: seq<string>, registration: string)
    requires OneRegistration(registration)
    ensures Added(Added(lines, registration), registration) == Added(lines, registration)
  {
    AddedIsPresent(lines, registration);
    PresentIsUnchanged(Added(lines, registration), registration);
  }

  /** Whatever is not a registration is never found in the table. */
  lemma OthersAreNotFound(lines: seq<string>, registration: string)
    requires !IsRegister(registration)
    ensures Strip(registration) !in Registered(lines)
  {
    if Strip(registration) in Registered(lines) {
      RegisteredAreRegistrations(lines, Strip(registration));
    }
  }

  lemma {:induction false} FirstIndexIs(lines: seq<string>, p: string -> bool, i: nat)
    requires i < |lines| && p(lines[i]) && forall k :: 0 <= k < i ==> !p(lines[k])
    ensures FirstIndex(lines, p) == i
  {
    if i > 0 {
      FirstIndexIs(lines[1..], p, i - 1);
    }
  }

  lemma SpliceTwice(lines: seq<string>, at: nat, until: nat, line: string)
    requires at <= until <= |lines|
    ensures at < |Splice(lines, at, until, [line])| && Splice(lines, at, until, [line])[at] == line
    ensures Splice(lines, at, until, [line])[..at] == lines[..at]
    ensures Splice(Splice(lines, at, until, [line]), at, at + 1, [line]) == Splice(lines, at, until, [line])
  {
  }

  /** The first stub, replaced by itself. */
  lemma StubReplacesItself(lines: seq<string>, at: nat, until: nat, line: string)
    requires at <= until <= |lines| && IsStub(line) && forall k :: 0 <= k < at ==> !IsStub(lines[k])
    ensures
      var later := Splice(lines, at, until, [line]);
      FirstIndex(later, IsStub) == at < |later| && Splice(later, at, at + 1, [line]) == later
  {
    var later := Splice(lines, at, until, [line]);
    SpliceTwice(lines, at, until, line);
    forall k | 0 <= k < at ensures !IsStub(later[k]) {
      assert later[..at][k] == lines[..at][k];
    }
    FirstIndexIs(later, IsStub, at);
  }

  lemma StubIsAddedOnce(lines: seq<string>, registration: string)
    requires IsStub(registration) && Unbroken(Strip(registration))
    ensures Added(Added(lines, registration), registration) == Added(lines, registration)
  {
    StubIsNoRegistration(registration);
    OthersAreNotFound(lines, registration);
    OthersAreNotFound(Added(lines, registration), registration);
    OneNewLine(registration);
    FirstIndexFacts(lines, IsStub);
    var inserted := NewLines(registration);
    var at, until := PlacedSplices(lines, FirstIndex(lines, IsStub), InsertionPoint(lines), inserted);
    var later := Added(lines, registration);
    StubReplacesItself(lines, at, until, inserted[0]);
    var again, beyond := PlacedSplices(later, at, InsertionPoint(later), inserted);
  }

  lemma BrokenSuffix(text: string, s: string)
    requires |s| <= |text| && text[|text| - |s|..] == s
    requires !Unbroken(s) && !IsBreak(s[|s| - 1])
    ensures |SplitLines(text)| >= 2
  {
    var n := |text| - |s|;
    var i :| 0 <= i < |s| && IsBreak(s[i]);
    assert text[n..][i] == text[n + i] && text[n..][|s| - 1] == text[|text| - 1];
    BrokenIsMoreLines(text);
  }

  lemma NewLinesCount(registration: string)
    requires !Unbroken(Strip(registration))
    ensures |NewLines(registration)| >= 2
  {
    var s := Strip(registration);
    assert !IsBreak(s[|s| - 1]);
    BrokenSuffix(Indent(s), s);
  }

  lemma PlacedInItself(inserted: seq<string>, stub: nat, point: nat)
    requires stub <= |inserted| && point <= |inserted| && inserted != []
    requires |inserted| == 1 ==> stub == 1
    ensures Placed(inserted, stub, point, inserted) != inserted
  {
    var at, until := PlacedSplices(inserted, stub, point, inserted);
    assert |Splice(inserted, at, until, inserted)| == 2 * |inserted| - (until - at);
  }

  lemma AddedToNothing(registration: string)
    ensures Added([], registration) == NewLines(registration)
  {
  }

  /** Added to an empty table twice, anything else is there twice. */
  lemma OthersAreAddedAgain(registration: string)
    requires !(Unbroken(Strip(registration)) && (IsRegister(registration) || IsStub(registration)))
    ensures Added(Added([], registration), registration) != Added([], registration)
  {
    var line, inserted := Strip(registration), NewLines(registration);
    AddedToNothing(registration);
    if line in Registered(inserted) {
      RegisteredAreRegistrations(inserted, line);
    }
    if Unbroken(line) {
      OneNewLine(registration);
    } else {
      NewLinesCount(registration);
    }
    PlacedInItself(inserted, FirstIndex(inserted, IsStub), InsertionPoint(inserted));
  }

  /** Adding is idempotent exactly for registrations on one line, and for the stub itself. */
  lemma IdempotentExactly(registration: string)
    ensures Idempotent(registration) <==>
      Unbroken(Strip(registration)) && (IsRegister(registration) || IsStub(registration))
  {
    if Unbroken(Strip(registration)) && (IsRegister(registration) || IsStub(registration)) {
      forall lines ensures Added(Added(lines, registration), registration) == Added(lines, registration) {
        if IsRegister(registration) {
          RegistrationIsAddedOnce(lines, registration);
        } else {
          StubIsAddedOnce(lines, registration);
        }
      }
    } else {
      OthersAreAddedAgain(registration);
    }
  }

  // ------------------------------------------------------------ many registrations

  function AddAll(lines: seq<string>, registrations: seq<string>): seq<string> {
    Fold(Added, lines, registrations)
  }

  ghost predicate AllRegistrations(registrations: seq<string>) {
    forall k :: 0 <= k < |registrations| ==> OneRegistration(registrations[k])
  }

  /** How often a registration is in the table: as before if it was there, else once. */
  function CountAfter(lines: seq<string>, registrations: seq<string>, s: string): nat {
    if s in Registered(lines) then multiset(Registered(lines))[s]
    else if s in Map(Strip, registrations) then 1
    else 0
  }

  lemma AddingCounts(lines: seq<string>, registration: string, s: string)
    requires OneRegistration(registration)
    ensures multiset(Registered(Added(lines, registration)))[s] ==
      if s == Strip(registration) && s !in Registered(lines) then 1 else multiset(Registered(lines))[s]
  {
    if Strip(registration) in Registered(lines) {
      PresentIsUnchanged(lines, registration);
    } else {
      var before, after := AddingKeepsRegistrations(lines, registration);
      CountInserted(before, after, Strip(registration), s);
    }
  }

  lemma CountInserted(before: seq<string>, after: seq<string>, x: string, s: string)
    ensures multiset(before + [x] + after)[s] == multiset(before + after)[s] + if s == x then 1 else 0
  {
    assert multiset(before + [x] + after) == multiset(before + after) + multiset{x};
  }

  lemma LastStripped(registrations: seq<string>, s: string)
    requires registrations != []
    ensures
      var n := |registrations| - 1;
      s in Map(Strip, registrations) <==> s in Map(Strip, registrations[..n]) || s == Strip(registrations[n])
  {
    var n := |registrations| - 1;
    assert registrations == registrations[..n] + [registrations[n]];
    MapConcat(Strip, registrations[..n], [registrations[n]]);
    assert Map(Strip, [registrations[n]]) == [Strip(registrations[n])];
  }

  /** After any number of registrations, each is in the table exactly once, and those that were
      there before as often as before. */
  lemma {:induction false} AddAllCounts(lines: seq<string>, registrations: seq<string>, s: string)
    requires AllRegistrations(registrations)
    ensures multiset(Registered(AddAll(lines, registrations)))[s] == CountAfter(lines, registrations, s)
  {
    if registrations != [] {
      var n := |registrations| - 1;
      AddAllCounts(lines, registrations[..n], s);
      var table := AddAll(lines, registrations[..n]);
      AddingCounts(table, registrations[n], s);
      LastStripped(registrations, s);
      CountOne(lines, registrations, Registered(table), s);
    }
  }

  lemma CountOne(lines: seq<string>, registrations: seq<string>, there: seq<string>, s: string)
    requires registrations != [] && multiset(there)[s] == CountAfter(lines, registrations[..|registrations| - 1], s)
    requires s in Map(Strip, registrations) <==>
      s in Map(Strip, registrations[..|registrations| - 1]) || s == Strip(registrations[|registrations| - 1])
    ensures CountAfter(lines, registrations, s) ==
      if s == Strip(registrations[|registrations| - 1]) && s !in there then 1 else multiset(there)[s]
  {
    assert s in there <==> s in multiset(there);
    assert s in Registered(lines) <==> s in multiset(Registered(lines));
  }

  /** The registrations do not depend on the order in which they are added. */
  lemma {:induction false} SameRegistrations(lines: seq<string>, a: seq<string>, b: seq<string>)
    requires AllRegistrations(a) && AllRegistrations(b) && multiset(a) == multiset(b)
    ensures multiset(Registered(AddAll(lines, a))) == multiset(Registered(AddAll(lines, b)))
  {
    MapOfPermutation(Strip, a, b);
    forall s ensures multiset(Registered(AddAll(lines, a)))[s] == multiset(Registered(AddAll(lines, b)))[s] {
      AddAllCounts(lines, a, s);
      AddAllCounts(lines, b, s);
      assert s in Map(Strip, a) <==> s in multiset(Map(Strip, a));
      assert s in Map(Strip, b) <==> s in multiset(Map(Strip, b));
    }
  }

  // ------------------------------------------------------------ the other lines of the table

  predicate IsOther(line: string) {
    !IsStub(line)
  }

  function Stubs(lines: seq<string>): seq<string> {
    Filter(lines, IsStub)
  }

  function Others(lines: seq<string>): seq<string> {
    Filter(lines, IsOther)
  }

  function Rest(lines: seq<string>, n: nat): seq<string> {
    if n <= |lines| then lines[n..] else []
  }

  lemma FilterParts(lines: seq<string>, at: nat, until: nat, more: seq<string>, p: string -> bool)
    requires at <= until <= |lines|
    ensures Filter(Splice(lines, at, until, more), p) == Filter(lines[..at], p) + Filter(more, p) + Filter(lines[until..], p)
  {
    FilterConcat(lines[..at] + more, lines[until..], p);
    FilterConcat(lines[..at], more, p);
  }

  lemma NoStubBefore(lines: seq<string>)
    ensures Stubs(lines[..FirstIndex(lines, IsStub)]) == []
  {
    FirstIndexFacts(lines, IsStub);
    FilterOfNone(lines[..FirstIndex(lines, IsStub)], IsStub);
  }

  lemma SpliceItself(lines: seq<string>, at: nat, until: nat)
    requires at <= until <= |lines|
    ensures Splice(lines, at, until, lines[at..until]) == lines
  {
  }

  /** Where the next line goes: in place of the first stub, or between two lines when there is none. */
  ghost predicate AtFirstStub(lines: seq<string>, at: nat, until: nat) {
    && at <= until <= |lines|
    && if FirstIndex(lines, IsStub) < |lines| then at == FirstIndex(lines, IsStub) && until == at + 1 else at == until
  }

  lemma SplicedParts(lines: seq<string>, at: nat, until: nat, line: string, p: string -> bool)
    requires at <= until <= at + 1 && until <= |lines|
    ensures Filter(Splice(lines, at, until, [line]), p) ==
      Filter(lines[..at], p) + (if p(line) then [line] else []) + Filter(lines[until..], p)
    ensures Filter(lines, p) ==
      Filter(lines[..at], p) + (if at < until && p(lines[at]) then [lines[at]] else []) + Filter(lines[until..], p)
  {
    SpliceItself(lines, at, until);
    FilterParts(lines, at, until, [line], p);
    FilterParts(lines, at, until, lines[at..until], p);
    FilterOne(line, p);
    if at < until {
      assert lines[at..until] == [lines[at]];
      FilterOne(lines[at], p);
    } else {
      assert lines[at..until] == [];
    }
  }

  lemma StubsLeft(lines: seq<string>, line: string, at: nat, until: nat)
    requires !IsStub(line) && AtFirstStub(lines, at, until)
    ensures Stubs(Splice(lines, at, until, [line])) == Rest(Stubs(lines), 1)
  {
    SplicedParts(lines, at, until, line, IsStub);
    NoStubBefore(lines);
    FirstIndexFacts(lines, IsStub);
    if at == until {
      assert lines[..|lines|] == lines;
    }
  }

  lemma CountMiddle(a: seq<string>, x: string, b: seq<string>)
    ensures multiset(a + [x] + b) == multiset(a + [] + b) + multiset{x}
  {
    assert a + [] == a;
  }

  lemma OthersLeft(lines: seq<string>, line: string, at: nat, until: nat)
    requires !IsStub(line) && AtFirstStub(lines, at, until)
    ensures multiset(Others(Splice(lines, at, until, [line]))) == multiset(Others(lines)) + multiset{line}
  {
    SplicedParts(lines, at, until, line, IsOther);
    FirstIndexFacts(lines, IsStub);
    CountMiddle(Filter(lines[..at], IsOther), line, Filter(lines[until..], IsOther));
  }

  /** The table after some registrations, of which `news` were new: each replaced a stub, as long as
      there were any, or is one more line. */
  ghost predicate Grown(lines: seq<string>, table: seq<string>, news: seq<string>) {
    && multiset(Registered(table)) == multiset(Registered(lines)) + multiset(news)
    && Stubs(table) == Rest(Stubs(lines), |news|)
    && multiset(Others(table)) == multiset(Others(lines)) + multiset(Map(Indent, news))
  }

  lemma RestOfRest(lines: seq<string>, n: nat)
    ensures Rest(Rest(lines, n), 1) == Rest(lines, n + 1)
  {
  }

  lemma RegisteredGrows(lines: seq<string>, table: seq<string>, registration: string)
    requires OneRegistration(registration) && Strip(registration) !in Registered(table)
    ensures multiset(Registered(Added(table, registration))) == multiset(Registered(table)) + multiset{Strip(registration)}
  {
    var before, after := AddingKeepsRegistrations(table, registration);
    CountMiddle(before, Strip(registration), after);
    assert before + [] == before;
  }

  /** The table with one new line at its place. */
  ghost predicate OneMoreLine(table: seq<string>, later: seq<string>, s: string) {
    && multiset(Registered(later)) == multiset(Registered(table)) + multiset{s}
    && Stubs(later) == Rest(Stubs(table), 1)
    && multiset(Others(later)) == multiset(Others(table)) + multiset{Indent(s)}
  }

  lemma AddingOneMoreLine(lines: seq<string>, table: seq<string>, registration: string)
    requires OneRegistration(registration) && Strip(registration) !in Registered(table)
    ensures OneMoreLine(table, Added(table, registration), Strip(registration))
  {
    var line := Indent(Strip(registration));
    var at, until := AddingInsertsOneLine(table, registration);
    StripIndented(registration);
    RegistrationIsNoStub(line);
    StubsLeft(table, line, at, until);
    OthersLeft(table, line, at, until);
    RegisteredGrows(lines, table, registration);
  }

  lemma CountAppended(later: multiset<string>, now: multiset<string>, before: multiset<string>, news: seq<string>, s: string)
    requires later == now + multiset{s} && now == before + multiset(news)
    ensures later == before + multiset(news + [s])
  {
  }

  lemma GrowsByOne(lines: seq<string>, table: seq<string>, later: seq<string>, news: seq<string>, s: string)
    requires Grown(lines, table, news) && OneMoreLine(table, later, s)
    ensures Grown(lines, later, news + [s])
  {
    RestOfRest(Stubs(lines), |news|);
    CountAppended(multiset(Registered(later)), multiset(Registered(table)), multiset(Registered(lines)), news, s);
    CountAppended(multiset(Others(later)), multiset(Others(table)), multiset(Others(lines)), Map(Indent, news), Indent(s));
    MapAppend(Indent, news, s);
  }

  lemma AddingGrows(lines: seq<string>, table: seq<string>, news: seq<string>, registration: string)
    requires OneRegistration(registration) && Strip(registration) !in Registered(table)
    requires Grown(lines, table, news)
    ensures Grown(lines, Added(table, registration), news + [Strip(registration)])
  {
    AddingOneMoreLine(lines, table, registration);
    GrowsByOne(lines, table, Added(table, registration), news, Strip(registration));
  }

  /** Adding registrations grows the table by the new ones. */
  lemma {:induction false} AddAllGrows(lines: seq<string>, registrations: seq<string>) returns (news: seq<string>)
    requires AllRegistrations(registrations)
    ensures Grown(lines, AddAll(lines, registrations), news)
  {
    if registrations == [] {
      news := [];
    } else {
      var n := |registrations| - 1;
      news := AddAllGrows(lines, registrations[..n]);
      var table := AddAll(lines, registrations[..n]);
      if Strip(registrations[n]) in Registered(table) {
        PresentIsUnchanged(table, registrations[n]);
      } else {
        AddingGrows(lines, table, news, registrations[n]);
        news := news + [Strip(registrations[n])];
      }
    }
  }

  lemma SameGrowth(lines: seq<string>, table: seq<string>, other: seq<string>, news: seq<string>, others: seq<string>)
    requires Grown(lines, table, news) && Grown(lines, other, others) && multiset(news) == multiset(others)
    ensures multiset(table) == multiset(other)
  {
    assert |multiset(news)| == |news| && |multiset(others)| == |others|;
    MapOfPermutation(Indent, news, others);
    FilterSplits(table, IsStub, IsOther);
    FilterSplits(other, IsStub, IsOther);
  }

  lemma Cancel(a: multiset<string>, b: multiset<string>, c: multiset<string>)
    requires a + b == a + c
    ensures b == c
  {
    forall s ensures b[s] == c[s] {
      assert (a + b)[s] == (a + c)[s];
    }
  }

  /** The order in which registrations are added does not matter to the lines of the table, of any
      kind, only to their order. */
  lemma {:induction false} OrderOfAddingIsIrrelevant(lines: seq<string>, a: seq<string>, b: seq<string>)
    requires AllRegistrations(a) && multiset(a) == multiset(b)
    ensures multiset(Registered(AddAll(lines, a))) == multiset(Registered(AddAll(lines, b)))
    ensures multiset(AddAll(lines, a)) == multiset(AddAll(lines, b))
  {
    forall k | 0 <= k < |b| ensures OneRegistration(b[k]) {
      assert b[k] in multiset(a);
    }
    SameRegistrations(lines, a, b);
    var news := AddAllGrows(lines, a);
    var others := AddAllGrows(lines, b);
    Cancel(multiset(Registered(lines)), multiset(news), multiset(others));
    SameGrowth(lines, AddAll(lines, a), AddAll(lines, b), news, others);
  }

  // ------------------------------------------------------------ the union of versions

  /** Whether `text` occurs in a line. */
  predicate Mentions(line: string, text: string) {
    exists i | 0 <= i <= |line| :: StartsWith(line[i..], text)
  }

  const LOCAL_TABLE := "entries: dict[str, object]"

  predicate IsLocalTable(versions: seq<seq<string>>) {
    exists v, l | 0 <= v < |versions| && 0 <= l < |versions[v]| :: Mentions(versions[v][l], LOCAL_TABLE)
  }

  const LOCAL_HEAD := "def _register_all() -> dict[str, object]:"
  const LOCAL_DOC := "    \"\"\"" + "Register feature handlers in a local table.\"\"\""
  const LOCAL_ENTRIES := "    entries: dict[str, object] = {}"
  const LOCAL_ALIAS := "    register = entries.__setitem__"
  const LOCAL_RETURN := "    return entries"
  const PLAIN_HEAD := "def _register_all() -> None:"
  const PLAIN_DOC := "    \"\"\"" + "Register every operation.\"\"\""
  const PLAIN_BODY := "    pass"

  /** A table without registrations: a local table of entries, or an empty function. */
  function EmptyTable(localTable: bool): seq<string> {
    if localTable then [LOCAL_HEAD, LOCAL_DOC, LOCAL_ENTRIES, LOCAL_ALIAS, LOCAL_RETURN]
    else [PLAIN_HEAD, PLAIN_DOC, PLAIN_BODY]
  }

  function AddLine(table: seq<string>, line: string): seq<string> {
    if IsRegister(line) then Added(table, line) else table
  }

  /** Add the registrations among some lines, one after the other. */
  function AddLines(table: seq<string>, lines: seq<string>): seq<string> {
    Fold(AddLine, table, lines)
  }

  function Union(versions: seq<seq<string>>): seq<string> {
    Fold(AddLines, EmptyTable(IsLocalTable(versions)), versions)
  }

  method UnionRegistry(versions: seq<seq<string>>) returns (merged: seq<string>)
    ensures merged == Union(versions)
  {
    merged := MergeVersions(EmptyTable(IsLocalTable(versions)), versions);
  }

  method MergeVersions(table: seq<string>, versions: seq<seq<string>>) returns (merged: seq<string>)
    ensures merged == Fold(AddLines, table, versions)
  {
    merged := table;
    for v := 0 to |versions|
      invariant merged == Fold(AddLines, table, versions[..v])
    {
      FoldOneMore(AddLines, table, versions, v);
      merged := MergeLines(merged, versions[v]);
    }
    assert versions[..|versions|] == versions;
  }

  method MergeLines(table: seq<string>, lines: seq<string>) returns (merged: seq<string>)
    ensures merged == AddLines(table, lines)
  {
    merged := table;
    for l := 0 to |lines|
      invariant merged == Fold(AddLine, table, lines[..l])
    {
      FoldOneMore(AddLine, table, lines, l);
      if IsRegister(lines[l]) {
        merged := AddRegistration(merged, lines[l]);
      }
    }
    assert lines[..|lines|] == lines;
  }

  /** The nested loops add every registration of every version. */
  lemma UnionAddsAll(versions: seq<seq<string>>)
    ensures Union(versions) == AddAll(EmptyTable(IsLocalTable(versions)), Filter(Flatten(versions), IsRegister))
  {
    var empty := EmptyTable(IsLocalTable(versions));
    FoldFlatten(AddLine, AddLines, empty, versions);
    FoldFilter(Added, AddLine, empty, Flatten(versions), IsRegister);
  }

  predicate NoStub(lines: seq<string>) {
    forall k :: 0 <= k < |lines| ==> !IsStub(lines[k])
  }

  lemma {:induction false} NoStubFound(lines: seq<string>)
    requires NoStub(lines)
    ensures FirstIndex(lines, IsStub) == |lines|
  {
    if lines != [] {
      NoStubFound(lines[1..]);
    }
  }

  /** Without a stub, a new registration comes last. */
  lemma AddingAppends(lines: seq<string>, registration: string)
    requires OneRegistration(registration) && NoStub(lines) && Strip(registration) !in Registered(lines)
    ensures Registered(Added(lines, registration)) == Registered(lines) + [Strip(registration)]
    ensures NoStub(Added(lines, registration))
  {
    NoStubFound(lines);
    var at, until := AddingInsertsOneLine(lines, registration);
    StripIndented(registration);
    NothingAfterInsertion(lines);
    SpliceAppends(lines, at, Indent(Strip(registration)));
    RegistrationIsNoStub(Indent(Strip(registration)));
    NoStubInSplice(lines, at, Indent(Strip(registration)));
  }

  lemma SpliceAppends(lines: seq<string>, at: nat, line: string)
    requires at <= |lines| && Registered(lines[at..]) == [] && IsRegister(line)
    ensures Registered(Splice(lines, at, at, [line])) == Registered(lines) + [Strip(line)]
  {
    RegisteredSplice(lines, at, at, line);
    RegisteredHalves(lines, at);
    Appended(Registered(lines[..at]), Strip(line));
  }

  lemma RegisteredHalves(lines: seq<string>, at: nat)
    requires at <= |lines|
    ensures Registered(lines) == Registered(lines[..at]) + Registered(lines[at..])
  {
    assert lines == lines[..at] + lines[at..];
    RegisteredConcat(lines[..at], lines[at..]);
  }

  lemma Appended(before: seq<string>, s: string)
    ensures before + [s] + [] == before + [] + [s]
  {
  }

  lemma RegistrationIsNoStub(line: string)
    requires IsRegister(line)
    ensures !IsStub(line)
  {
    if IsStub(line) {
      StubIsNoRegistration(line);
    }
  }

  lemma NoStubInSplice(lines: seq<string>, at: nat, line: string)
    requires NoStub(lines) && at <= |lines| && !IsStub(line)
    ensures NoStub(Splice(lines, at, at, [line]))
  {
    var later := Splice(lines, at, at, [line]);
    forall k | 0 <= k < |later| ensures !IsStub(later[k]) {
      assert later[k] == if k < at then lines[k] else if k == at then line else lines[k - 1];
    }
  }

  lemma NothingAfterInsertion(lines: seq<string>)
    ensures Registered(lines[InsertionPoint(lines)..]) == []
  {
    LastIndexFacts(lines, IsRegister);
    var at := InsertionPoint(lines);
    forall k | 0 <= k < |lines[at..]| ensures !IsRegister(lines[at..][k]) {
      assert lines[at..][k] == lines[at + k];
    }
    NoneRegistered(lines[at..]);
  }

  /** Without a stub, adding appends what is new. */
  lemma AddingAppendsNew(table: seq<string>, registration: string)
    requires OneRegistration(registration) && NoStub(table)
    ensures AppendsNew(Added, Registered, Strip, NoStub, table, registration)
  {
    if Strip(registration) in Registered(table) {
      PresentIsUnchanged(table, registration);
    } else {
      AddingAppends(table, registration);
    }
  }

  /** A line indented by `n`, whose text goes on like neither a registration nor the stub. */
  lemma PlainLine(line: string, n: nat, k: nat, l: nat)
    requires n < |line| && (forall i :: 0 <= i < n ==> line[i] == ' ') && !IsSpace(line[n])
    requires k < 9 && n + k < |line| && line[n + k] != "register("[k]
    requires l < 2 && n + l < |line| && line[n + l] != "ra"[l]
    ensures !IsRegister(line) && !IsStub(line)
  {
    StripLeftIndent(line, n);
    StripRightIsPrefix(line[n..], IsSpace);
    var s := Strip(line);
    assert s == line[n..][..|s|];
    assert |s| > k ==> s[k] == line[n + k];
    assert |s| > l ==> s[l] == line[n + l];
  }

  lemma HeadLine(line: string)
    requires line == LOCAL_HEAD || line == PLAIN_HEAD
    ensures !IsRegister(line) && !IsStub(line)
  {
    PlainLine(line, 0, 0, 0);
  }

  lemma DocLine(line: string)
    requires line == LOCAL_DOC || line == PLAIN_DOC
    ensures !IsRegister(line) && !IsStub(line)
  {
    PlainLine(line, 4, 0, 0);
  }

  lemma EntriesLine(line: string)
    requires line == LOCAL_ENTRIES
    ensures !IsRegister(line) && !IsStub(line)
  {
    PlainLine(line, 4, 0, 0);
  }

  lemma AliasLine(line: string)
    requires line == LOCAL_ALIAS
    ensures !IsRegister(line) && !IsStub(line)
  {
    PlainLine(line, 4, 8, 1);
  }

  lemma ReturnLine(line: string)
    requires line == LOCAL_RETURN
    ensures !IsRegister(line) && !IsStub(line)
  {
    PlainLine(line, 4, 2, 1);
  }

  lemma BodyLine(line: string)
    requires line == PLAIN_BODY
    ensures !IsRegister(line) && !IsStub(line)
  {
    PlainLine(line, 4, 0, 0);
  }

  lemma EmptyTableLine(line: string)
    requires line in EmptyTable(true) || line in EmptyTable(false)
    ensures !IsRegister(line) && !IsStub(line)
  {
    if line == LOCAL_HEAD || line == PLAIN_HEAD {
      HeadLine(line);
    } else if line == LOCAL_DOC || line == PLAIN_DOC {
      DocLine(line);
    } else if line == LOCAL_ENTRIES {
      EntriesLine(line);
    } else if line == LOCAL_ALIAS {
      AliasLine(line);
    } else if line == LOCAL_RETURN {
      ReturnLine(line);
    } else {
      BodyLine(line);
    }
  }

  lemma EmptyTableIsEmpty(table: seq<string>)
    requires table == EmptyTable(true) || table == EmptyTable(false)
    ensures NoStub(table) && Registered(table) == []
  {
    forall k | 0 <= k < |table| ensures !IsRegister(table[k]) && !IsStub(table[k]) {
      EmptyTableLine(table[k]);
    }
    NoneRegistered(table);
  }

  /** Merged from an empty table, registrations are listed once each, by first occurrence. */
  lemma AddAllToEmpty(localTable: bool, registrations: seq<string>)
    requires AllRegistrations(registrations)
    ensures Registered(AddAll(EmptyTable(localTable), registrations)) == Dedup(Map(Strip, registrations))
  {
    EmptyTableIsEmpty(EmptyTable(localTable));
    forall table, r | r in registrations && NoStub(table)
      ensures AppendsNew(Added, Registered, Strip, NoStub, table, r)
    {
      AddingAppendsNew(table, r);
    }
    FoldAppendsNew(Added, Registered, Strip, NoStub, EmptyTable(localTable), registrations);
  }

  /** The lines of a version contain no line breaks. */
  ghost predicate AreLines(versions: seq<seq<string>>) {
    forall v, l :: 0 <= v < |versions| && 0 <= l < |versions[v]| ==> Unbroken(versions[v][l])
  }

  /** The union holds each registration of any version exactly once, in the order in which they
      are first met. */
  lemma {:induction false} UnionIsExact(versions: seq<seq<string>>)
    requires AreLines(versions)
    ensures Registered(Union(versions)) == Dedup(Registered(Flatten(versions)))
  {
    UnionAddsAll(versions);
    VersionsRegister(versions);
    AddAllToEmpty(IsLocalTable(versions), Filter(Flatten(versions), IsRegister));
  }

  lemma VersionsRegister(versions: seq<seq<string>>)
    requires AreLines(versions)
    ensures AllRegistrations(Filter(Flatten(versions), IsRegister))
  {
    var registrations := Filter(Flatten(versions), IsRegister);
    forall k | 0 <= k < |registrations| ensures OneRegistration(registrations[k]) {
      assert registrations[k] in registrations;
      FlattenMember(versions, registrations[k]);
      StripUnbroken(registrations[k]);
    }
  }

  /** The table ends with a `return`, and has no stub: what is added comes before it. */
  ghost predicate EndsWithReturn(table: seq<string>, last: string) {
    && NoStub(table) && table != [] && table[|table| - 1] == last
    && IsReturn(last) && !IsRegister(last)
  }

  /** Registrations never follow the final `return`. */
  lemma {:induction false} ReturnStaysLast(table: seq<string>, registration: string, last: string)
    requires OneRegistration(registration) && EndsWithReturn(table, last)
    ensures EndsWithReturn(Added(table, registration), last)
  {
    if Strip(registration) in Registered(table) {
      PresentIsUnchanged(table, registration);
    } else {
      AddingAppends(table, registration);
      AddedBeforeReturn(table, registration, last);
    }
  }

  lemma AddedBeforeReturn(table: seq<string>, registration: string, last: string)
    requires OneRegistration(registration) && Strip(registration) !in Registered(table) && EndsWithReturn(table, last)
    ensures
      var later := Added(table, registration);
      later != [] && later[|later| - 1] == last
  {
    NoStubFound(table);
    var at, until := AddingInsertsOneLine(table, registration);
    InsertedBeforeReturn(table, last);
    SpliceKeepsLast(table, at, Indent(Strip(registration)));
  }

  lemma InsertedBeforeReturn(table: seq<string>, last: string)
    requires EndsWithReturn(table, last)
    ensures InsertionPoint(table) < |table|
  {
  }

  lemma SpliceKeepsLast(lines: seq<string>, at: nat, line: string)
    requires at < |lines|
    ensures
      var later := Splice(lines, at, at, [line]);
      later != [] && later[|later| - 1] == lines[|lines| - 1]
  {
  }

  lemma {:induction false} AllBeforeReturn(table: seq<string>, registrations: seq<string>, last: string)
    requires AllRegistrations(registrations) && EndsWithReturn(table, last)
    ensures EndsWithReturn(AddAll(table, registrations), last)
  {
    if registrations != [] {
      var n := |registrations| - 1;
      AllBeforeReturn(table, registrations[..n], last);
      ReturnStaysLast(AddAll(table, registrations[..n]), registrations[n], last);
    }
  }

  lemma LocalTableReturns()
    ensures EndsWithReturn(EmptyTable(true), LOCAL_RETURN)
  {
    EmptyTableIsEmpty(EmptyTable(true));
    EmptyTableLine(LOCAL_RETURN);
    LocalReturnReturns(LOCAL_RETURN);
  }

  lemma LocalReturnReturns(line: string)
    requires line == LOCAL_RETURN
    ensures IsReturn(line)
  {
    StripLeftIndent(line, 4);
    StripRightIsPrefix(line[4..], IsSpace);
    assert !IsSpace(line[|line| - 1]);
    assert Strip(line) == line[4..];
  }

  /** A merged local table still ends with its `return`, after all registrations. */
  lemma UnionStillReturns(versions: seq<seq<string>>)
    requires AreLines(versions) && IsLocalTable(versions)
    ensures EndsWithReturn(Union(versions), LOCAL_RETURN)
  {
    UnionAddsAll(versions);
    VersionsRegister(versions);
    LocalTableReturns();
    AllBeforeReturn(EmptyTable(true), Filter(Flatten(versions), IsRegister), LOCAL_RETURN);
  }
}
