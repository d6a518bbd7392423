/** The whole text of a table that registrations are merged into from an empty one. */
module RegistrationTexts {
  import opened Sequences
  import opened Text
  import opened RegistrationTables

  /** A table that is a front, its registrations, each on an indented line, and a back. */
  ghost predicate Shaped(front: seq<string>, back: seq<string>, table: seq<string>) {
    table == front + Map(Indent, Registered(table)) + back
  }

  ghost predicate Plain(lines: seq<string>) {
    forall k :: 0 <= k < |lines| ==> !IsRegister(lines[k]) && !IsStub(lines[k])
  }

  /** Registrations come behind the front: nothing follows, and the front returns nothing, or one
      `return` follows. */
  ghost predicate Frames(front: seq<string>, back: seq<string>) {
    && Plain(front) && Plain(back)
    && if back == [] then forall k :: 0 <= k < |front| ==> !IsReturn(front[k]) else |back| == 1 && IsReturn(back[0])
  }

  lemma {:induction false} LastIndexIs(lines: seq<string>, p: string -> bool, n: nat)
    requires n <= |lines| && (n > 0 ==> p(lines[n - 1])) && forall k :: n <= k < |lines| ==> !p(lines[k])
    ensures LastIndex(lines, p) == n
  {
    if n < |lines| {
      LastIndexIs(lines[..|lines| - 1], p, n);
    }
  }

  lemma IndentedRegisters(table: seq<string>, k: nat)
    requires k < |Registered(table)|
    ensures IsRegister(Indent(Registered(table)[k])) && !IsStub(Indent(Registered(table)[k]))
  {
    var s := Registered(table)[k];
    assert s in Registered(table);
    RegisteredAreRegistrations(table, s);
    assert s == Strip(Filter(table, IsRegister)[k]);
    StripIndented(Filter(table, IsRegister)[k]);
    RegistrationIsNoStub(Indent(s));
  }

  lemma PointWith(front: seq<string>, middle: seq<string>, back: seq<string>)
    requires Frames(front, back) && forall k :: 0 <= k < |middle| ==> IsRegister(middle[k])
    ensures InsertionPoint(front + middle + back) == |front| + |middle|
  {
    var lines := front + middle + back;
    if middle != [] {
      LastIndexIs(lines, IsRegister, |front| + |middle|);
    } else {
      assert lines == front + back;
      LastIndexIs(lines, IsRegister, 0);
      LastIndexIs(lines, IsReturn, if back == [] then 0 else |lines|);
    }
  }

  lemma SpliceBefore(front: seq<string>, middle: seq<string>, back: seq<string>, line: string)
    ensures Splice(front + middle + back, |front| + |middle|, |front| + |middle|, [line]) == front + (middle + [line]) + back
  {
    var lines := front + middle + back;
    assert lines[..|front| + |middle|] == front + middle && lines[|front| + |middle|..] == back;
  }

  lemma ShapedHasNoStub(front: seq<string>, back: seq<string>, table: seq<string>)
    requires Frames(front, back) && Shaped(front, back, table)
    ensures NoStub(table)
    ensures InsertionPoint(table) == |front| + |Registered(table)|
  {
    var middle := Map(Indent, Registered(table));
    forall k | 0 <= k < |middle| ensures IsRegister(middle[k]) && !IsStub(middle[k]) {
      IndentedRegisters(table, k);
    }
    PointWith(front, middle, back);
    forall k | 0 <= k < |table| ensures !IsStub(table[k]) {
      assert table[k] == if k < |front| then front[k] else if k < |front| + |middle| then middle[k - |front|] else back[k - |front| - |middle|];
    }
  }

  lemma AddingKeepsShape(front: seq<string>, back: seq<string>, table: seq<string>, registration: string)
    requires Frames(front, back) && Shaped(front, back, table) && OneRegistration(registration)
    ensures Shaped(front, back, Added(table, registration))
    ensures Registered(Added(table, registration)) ==
      if Strip(registration) in Registered(table) then Registered(table) else Registered(table) + [Strip(registration)]
  {
    if Strip(registration) in Registered(table) {
      PresentIsUnchanged(table, registration);
    } else {
      var s := Strip(registration);
      ShapedHasNoStub(front, back, table);
      NoStubFound(table);
      AddingAppends(table, registration);
      OneNewLine(registration);
      SpliceBefore(front, Map(Indent, Registered(table)), back, Indent(s));
      MapAppend(Indent, Registered(table), s);
    }
  }

  ghost function ShapedBy(front: seq<string>, back: seq<string>): seq<string> -> bool {
    (table: seq<string>) => Shaped(front, back, table)
  }

  lemma AllAdded(front: seq<string>, back: seq<string>, registrations: seq<string>)
    requires Frames(front, back) && AllRegistrations(registrations)
    ensures AddAll(front + back, registrations) == front + Map(Indent, Dedup(Map(Strip, registrations))) + back
  {
    forall k | 0 <= k < |front + back| ensures !IsRegister((front + back)[k]) {
    }
    NoneRegistered(front + back);
    assert front + [] + back == front + back;
    forall table, r | r in registrations && ShapedBy(front, back)(table)
      ensures AppendsNew(Added, Registered, Strip, ShapedBy(front, back), table, r)
    {
      AddingKeepsShape(front, back, table, r);
    }
    FoldAppendsNew(Added, Registered, Strip, ShapedBy(front, back), front + back, registrations);
  }

  /** Some line of some version declares the local table. */
  ghost predicate DeclaresTable(versions: seq<seq<string>>) {
    exists v, l :: 0 <= v < |versions| && 0 <= l < |versions[v]| && Contains(versions[v][l], "entries: dict[str, object]")
  }

  lemma MentionsExactly(line: string, text: string)
    ensures Mentions(line, text) <==> Contains(line, text)
  {
    if i :| 0 <= i <= |line| && StartsWith(line[i..], text) {
      assert line == line[..i] + text + line[i..][|text|..];
      ContainsAt(line, line[..i], text, line[i..][|text|..]);
    }
    if Contains(line, text) {
      var before, after :| line == before + text + after;
      assert line[|before|..] == text + after;
      assert StartsWith(line[|before|..], text);
    }
  }

  lemma LocalExactly(versions: seq<seq<string>>)
    ensures IsLocalTable(versions) <==> DeclaresTable(versions)
  {
    if v, l :| 0 <= v < |versions| && 0 <= l < |versions[v]| && Mentions(versions[v][l], LOCAL_TABLE) {
      MentionsExactly(versions[v][l], LOCAL_TABLE);
    }
    if v, l :| 0 <= v < |versions| && 0 <= l < |versions[v]| && Contains(versions[v][l], LOCAL_TABLE) {
      MentionsExactly(versions[v][l], LOCAL_TABLE);
    }
  }

  /** The lines of a merged table. */
  ghost predicate IsTable(localTable: bool, registrations: seq<string>, table: seq<string>) {
    if localTable then
      table == [
        "def _register_all() -> dict[str, object]:",
        "    \"\"\"" + "Register feature handlers in a local table.\"\"\"",
        "    entries: dict[str, object] = {}",
        "    register = entries.__setitem__"] + Map(Indent, registrations) + ["    return entries"]
    else
      table == ["def _register_all() -> None:", "    \"\"\"" + "Register every operation.\"\"\"", "    pass"] + Map(Indent, registrations)
  }

  lemma StartsOtherwise(line: string, n: nat)
    requires n < |line| && (forall i :: 0 <= i < n ==> line[i] == ' ') && !IsSpace(line[n]) && line[n] != 'r'
    ensures !IsReturn(line)
  {
    StripLeftIndent(line, n);
    StripRightIsPrefix(line[n..], IsSpace);
    var s := Strip(line);
    assert s == line[n..][..|s|];
    assert |s| > 0 ==> s[0] == line[n];
  }

  lemma PlainLines(head: string, doc: string, body: string)
    requires head == PLAIN_HEAD && doc == PLAIN_DOC && body == PLAIN_BODY
    ensures !IsReturn(head) && !IsReturn(doc) && !IsReturn(body)
  {
    StartsOtherwise(head, 0);
    StartsOtherwise(doc, 4);
    StartsOtherwise(body, 4);
  }

  lemma PlainFrames(head: string, doc: string, body: string)
    requires head == PLAIN_HEAD && doc == PLAIN_DOC && body == PLAIN_BODY
    ensures Frames([head, doc, body], [])
  {
    HeadLine(head);
    DocLine(doc);
    BodyLine(body);
    PlainLines(head, doc, body);
    ThreeFrames(head, doc, body);
  }

  lemma ThreeFrames(a: string, b: string, c: string)
    requires forall line :: line in {a, b, c} ==> !IsRegister(line) && !IsStub(line) && !IsReturn(line)
    ensures Frames([a, b, c], [])
  {
  }

  lemma LocalFrames(head: string, doc: string, entries: string, alias: string, last: string)
    requires head == LOCAL_HEAD && doc == LOCAL_DOC && entries == LOCAL_ENTRIES && alias == LOCAL_ALIAS && last == LOCAL_RETURN
    ensures Frames([head, doc, entries, alias], [last])
  {
    HeadLine(head);
    DocLine(doc);
    EntriesLine(entries);
    AliasLine(alias);
    ReturnLine(last);
    LocalReturnReturns(last);
    FourFrames(head, doc, entries, alias, last);
  }

  lemma FourFrames(a: string, b: string, c: string, d: string, last: string)
    requires forall line :: line in {a, b, c, d, last} ==> !IsRegister(line) && !IsStub(line)
    requires IsReturn(last)
    ensures Frames([a, b, c, d], [last])
  {
  }

  lemma PlainTable(head: string, doc: string, body: string, registrations: seq<string>)
    requires head == PLAIN_HEAD && doc == PLAIN_DOC && body == PLAIN_BODY && AllRegistrations(registrations)
    ensures AddAll([head, doc, body], registrations) == [head, doc, body] + Map(Indent, Dedup(Map(Strip, registrations)))
  {
    var front := [head, doc, body];
    PlainFrames(head, doc, body);
    AllAdded(front, [], registrations);
    assert front + [] == front;
    assert front + Map(Indent, Dedup(Map(Strip, registrations))) + [] == front + Map(Indent, Dedup(Map(Strip, registrations)));
  }

  lemma LocalTable(head: string, doc: string, entries: string, alias: string, last: string, registrations: seq<string>)
    requires head == LOCAL_HEAD && doc == LOCAL_DOC && entries == LOCAL_ENTRIES && alias == LOCAL_ALIAS && last == LOCAL_RETURN
    requires AllRegistrations(registrations)
    ensures AddAll([head, doc, entries, alias, last], registrations) ==
      [head, doc, entries, alias] + Map(Indent, Dedup(Map(Strip, registrations))) + [last]
  {
    var front := [head, doc, entries, alias];
    LocalFrames(head, doc, entries, alias, last);
    AllAdded(front, [last], registrations);
    assert front + [last] == [head, doc, entries, alias, last];
  }

  lemma SomeTable(localTable: bool, registrations: seq<string>)
    requires AllRegistrations(registrations)
    ensures IsTable(localTable, Dedup(Map(Strip, registrations)), AddAll(EmptyTable(localTable), registrations))
  {
    if localTable {
      LocalTable(LOCAL_HEAD, LOCAL_DOC, LOCAL_ENTRIES, LOCAL_ALIAS, LOCAL_RETURN, registrations);
    } else {
      PlainTable(PLAIN_HEAD, PLAIN_DOC, PLAIN_BODY, registrations);
    }
  }

  lemma TableOfLines(localTable: bool, lines: seq<string>)
    requires AllRegistrations(Filter(lines, IsRegister))
    ensures IsTable(localTable, Dedup(Map(Strip, Filter(lines, Registers))), AddAll(EmptyTable(localTable), Filter(lines, IsRegister)))
  {
    FilterAgrees(lines, IsRegister, Registers);
    SomeTable(localTable, Filter(lines, IsRegister));
  }

  /** The whole text of a union: of the local table when some version declares it, with the
      registrations of all versions by first occurrence, each on an indented line, before its
      `return`; and otherwise of a plain function, with the registrations at its end. */
  lemma UnionExactly(versions: seq<seq<string>>)
    requires AreLines(versions)
    ensures IsTable(DeclaresTable(versions), Dedup(Map(Strip, Filter(Flatten(versions), Registers))), Union(versions))
  {
    UnionAddsAll(versions);
    VersionsRegister(versions);
    LocalExactly(versions);
    TableOfLines(IsLocalTable(versions), Flatten(versions));
  }
}
