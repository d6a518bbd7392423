/** Saving two disjoint sets of keys: exactly when the order does not matter for what is stored. */
module KeyFileCommuting {
  import opened Sequences
  import opened Options
  import opened OrderedDicts
  import opened Text
  import opened KeyFile
  import opened KeyFileText
  import opened KeyFileLines
  import opened KeyFileLaws
  import opened KeyFileSurvival
  import opened KeyFileSettling

  ghost predicate Disjoint(a: Dict<string>, b: Dict<string>) {
    forall i, k :: 0 <= i < |a| && 0 <= k < |b| ==> a[i].0 != b[k].0
  }

  /** What is stored does not depend on which save comes first. */
  ghost predicate Commute(a: Dict<string>, b: Dict<string>) {
    forall text, name :: Stored(Saved(Saved(text, a), b), name) == Stored(Saved(Saved(text, b), a), name)
  }

  /** What the lines of a key store under `name`. */
  function Says(key: (string, string), name: string): Option<string> {
    StoredIn(Block(key), name)
  }

  /** The `k`-th key stores something under `name`. */
  predicate SaysSome(keys: Dict<string>, k: nat, name: string) {
    k < |keys| && Valued(keys[k]) && Says(keys[k], name).Some?
  }

  /** A padded key after the `k`-th stores something under `name`; padded keys are always appended,
      so it has the last word. */
  ghost predicate Outlasted(keys: Dict<string>, k: nat, name: string) {
    exists j: nat :: k < j && SaysSome(keys, j, name) && !Plain(keys[j])
  }

  ghost predicate PaddedSays(keys: Dict<string>, name: string) {
    exists j: nat :: SaysSome(keys, j, name) && !Plain(keys[j])
  }

  /** Some line that is written for `keys` has this name. */
  ghost predicate Mentions(keys: Dict<string>, name: string) {
    exists key, l :: WrittenFor(keys, key, l) && l.name == name
  }

  /** A key of `a` that a line of `b` mentions says the same about `name` as the keys it could
      overrule: those before it, and any other when all of them are plain. */
  ghost predicate Agrees(a: Dict<string>, b: Dict<string>, name: string) {
    forall i: nat, k: nat ::
      && SaysSome(a, i, name) && !Outlasted(a, i, name)
      && SaysSome(a, k, name) && !Outlasted(a, k, name)
      && Plain(a[k]) && Mentions(b, a[k].0)
      && (i < k || !PaddedSays(a, name))
      ==> Says(a[i], name) == Says(a[k], name)
  }

  ghost predicate AgreesOnAll(a: Dict<string>, b: Dict<string>) {
    forall name :: Lookup(a, name).Some? ==> Agrees(a, b, name)
  }

  // ------------------------------------------------------------ the last piece that says something

  lemma {:induction false} StoredInConcat(a: seq<EnvLine>, b: seq<EnvLine>, name: string)
    ensures StoredIn(a + b, name) == if StoredIn(b, name).Some? then StoredIn(b, name) else StoredIn(a, name)
  {
    if b == [] {
      assert a + b == a;
    } else {
      var n := |b| - 1;
      StoredInConcat(a, b[..n], name);
      assert (a + b)[..|a + b| - 1] == a + b[..n];
    }
  }

  ghost predicate LastSayer<A>(f: A -> seq<EnvLine>, s: seq<A>, name: string, w: nat) {
    && w < |s| && StoredIn(f(s[w]), name).Some?
    && forall t :: w < t < |s| ==> StoredIn(f(s[t]), name).None?
  }

  lemma {:induction false} LastSayerDecides<A>(f: A -> seq<EnvLine>, s: seq<A>, name: string, w: nat)
    requires LastSayer(f, s, name, w)
    ensures StoredIn(FlatMap(f, s), name) == StoredIn(f(s[w]), name)
  {
    var n := |s| - 1;
    StoredInConcat(FlatMap(f, s[..n]), f(s[n]), name);
    if w < n {
      LastSayerDecides(f, s[..n], name, w);
    }
  }

  lemma {:induction false} FindLastSayer<A>(f: A -> seq<EnvLine>, s: seq<A>, name: string, k: nat) returns (w: nat)
    requires k < |s| && StoredIn(f(s[k]), name).Some?
    ensures k <= w && LastSayer(f, s, name, w)
  {
    var n := |s| - 1;
    if StoredIn(f(s[n]), name).Some? {
      w := n;
    } else {
      w := FindLastSayer(f, s[..n], name, k);
    }
  }

  lemma {:induction false} SomeSayer<A>(f: A -> seq<EnvLine>, s: seq<A>, name: string) returns (w: nat)
    requires StoredIn(FlatMap(f, s), name).Some?
    ensures w < |s| && StoredIn(f(s[w]), name) == StoredIn(FlatMap(f, s), name)
  {
    var n := |s| - 1;
    StoredInConcat(FlatMap(f, s[..n]), f(s[n]), name);
    if StoredIn(f(s[n]), name).Some? {
      w := n;
    } else {
      w := SomeSayer(f, s[..n], name);
    }
  }

  // ------------------------------------------------------------ what a save appends

  /** The `k`-th key is appended and says something. */
  ghost predicate AppendsSaying(keys: Dict<string>, lines: seq<EnvLine>, k: nat, name: string) {
    SaysSome(keys, k, name) && !Assigned(lines, keys[k].0)
  }

  ghost predicate LastAppended(keys: Dict<string>, lines: seq<EnvLine>, name: string, w: nat) {
    AppendsSaying(keys, lines, w, name) && forall t: nat :: w < t ==> !AppendsSaying(keys, lines, t, name)
  }

  lemma AppendedSays(keys: Dict<string>, lines: seq<EnvLine>, k: nat, name: string)
    requires k < |keys|
    ensures StoredIn(NextMissing(MissingFrom(lines))(keys[k]), name) ==
      if AppendsSaying(keys, lines, k, name) then Says(keys[k], name) else None
  {
  }

  lemma LastAppendedDecides(keys: Dict<string>, lines: seq<EnvLine>, name: string, w: nat)
    requires LastAppended(keys, lines, name, w)
    ensures StoredIn(NextLines(keys, lines), name) == Says(keys[w], name)
  {
    var f := NextMissing(MissingFrom(lines));
    AppendedSays(keys, lines, w, name);
    forall t | w < t < |keys| ensures StoredIn(f(keys[t]), name).None? {
      AppendedSays(keys, lines, t, name);
    }
    assert LastSayer(f, keys, name, w);
    LastSayerDecides(f, keys, name, w);
    StoredInConcat(FlatMap(Nexting(keys), lines), FlatMap(f, keys), name);
  }

  lemma FindLastAppended(keys: Dict<string>, lines: seq<EnvLine>, name: string, k: nat) returns (w: nat)
    requires AppendsSaying(keys, lines, k, name)
    ensures k <= w && LastAppended(keys, lines, name, w)
  {
    var f := NextMissing(MissingFrom(lines));
    AppendedSays(keys, lines, k, name);
    w := FindLastSayer(f, keys, name, k);
    AppendedSays(keys, lines, w, name);
    forall t: nat | w < t ensures !AppendsSaying(keys, lines, t, name) {
      if t < |keys| {
        AppendedSays(keys, lines, t, name);
      }
    }
  }

  lemma PaddedIsAppending(keys: Dict<string>, lines: seq<EnvLine>, k: nat, name: string)
    requires WellParsed(lines) && SaysSome(keys, k, name) && !Plain(keys[k])
    ensures AppendsSaying(keys, lines, k, name)
  {
    PaddedIsMissing(lines, keys[k]);
  }

  lemma LastAppendedIsNotOutlasted(keys: Dict<string>, lines: seq<EnvLine>, name: string, w: nat)
    requires WellParsed(lines) && LastAppended(keys, lines, name, w)
    ensures !Outlasted(keys, w, name)
  {
    if Outlasted(keys, w, name) {
      var j: nat :| w < j && SaysSome(keys, j, name) && !Plain(keys[j]);
      PaddedIsAppending(keys, lines, j, name);
    }
  }

  // ------------------------------------------------------------ which names are there after the other save

  lemma DisjointLookup(a: Dict<string>, b: Dict<string>, name: string)
    requires Disjoint(a, b) && Lookup(a, name).Some?
    ensures Lookup(b, name).None?
  {
    LookupIsEntry(a, name);
    if Lookup(b, name).Some? {
      LookupIsEntry(b, name);
    }
  }

  lemma UntouchedIsThere(keys: Dict<string>, lines: seq<EnvLine>, l: EnvLine)
    requires l in lines && Untouched(keys, l)
    ensures l in NextLines(keys, lines)
  {
    assert l in Nexting(keys)(l);
    FlatMapMember(Nexting(keys), lines, l);
  }

  lemma AssignedInFile(lines: seq<EnvLine>, name: string)
    ensures Assigned(FileOf(lines), name) <==> Assigned(lines, name)
  {
    if Assigned(lines, name) {
      var k :| 0 <= k < |lines| && lines[k].name == name;
      FileHolds(lines, k);
      assert lines[..k + 1][k] == lines[k];
      assert FileOf(lines)[k].name == name;
    }
    if Assigned(FileOf(lines), name) {
      var k :| 0 <= k < |FileOf(lines)| && FileOf(lines)[k].name == name;
      assert lines[k].name == name;
    }
  }

  /** The file after the save of `b`. */
  ghost function After(b: Dict<string>, lines: seq<EnvLine>): seq<EnvLine> {
    FileOf(NextLines(b, lines))
  }

  /** A name of `a` is there after the save of `b` if it was there before, or `b` mentions it. */
  lemma AssignedAfter(b: Dict<string>, lines: seq<EnvLine>, name: string)
    requires DistinctKeys(b) && name != "" && Lookup(b, name).None?
    ensures Assigned(After(b, lines), name) <==> Assigned(lines, name) || Mentions(b, name)
  {
    var next := NextLines(b, lines);
    AssignedInFile(next, name);
    if Assigned(lines, name) {
      var k :| 0 <= k < |lines| && lines[k].name == name;
      UntouchedIsThere(b, lines, lines[k]);
      AssignedBy(next, lines[k], name);
    } else if Mentions(b, name) {
      var key, l :| WrittenFor(b, key, l) && l.name == name;
      WrittenIsThere(b, lines, key, l);
      AssignedBy(next, l, name);
    } else if Assigned(next, name) {
      var k :| 0 <= k < |next| && next[k].name == name;
      NextMember(b, lines, next[k]);
      if next[k] in lines {
        AssignedBy(lines, next[k], name);
      }
    }
  }

  lemma KeyAfter(a: Dict<string>, b: Dict<string>, lines: seq<EnvLine>, k: nat)
    requires AllNamesValid(a) && DistinctKeys(a) && DistinctKeys(b) && Disjoint(a, b) && k < |a|
    ensures Assigned(After(b, lines), a[k].0) <==> Assigned(lines, a[k].0) || Mentions(b, a[k].0)
  {
    EntryIsValid(a, a[k]);
    EntryIsLookup(a, a[k]);
    DisjointLookup(a, b, a[k].0);
    AssignedAfter(b, lines, a[k].0);
  }

  lemma AfterIsWellParsed(b: Dict<string>, text: string)
    ensures LinesOf(Saved(text, b)) == After(b, LinesOf(text)) && WellParsed(After(b, LinesOf(text)))
  {
    SavedLines(text, b);
    TextIsWellParsed(Saved(text, b));
  }

  // ------------------------------------------------------------ agreement is enough

  /** If a padded key says something, the last key that is appended decides. */
  lemma PaddedDecide(a: Dict<string>, b: Dict<string>, text: string, name: string)
    requires DistinctKeys(a) && AllNamesValid(a) && DistinctKeys(b) && Disjoint(a, b)
    requires Agrees(a, b, name) && PaddedSays(a, name)
    ensures StoredIn(NextLines(a, After(b, LinesOf(text))), name) == StoredIn(NextLines(a, LinesOf(text)), name)
  {
    var lines, after := LinesOf(text), After(b, LinesOf(text));
    TextIsWellParsed(text);
    AfterIsWellParsed(b, text);
    var j: nat :| SaysSome(a, j, name) && !Plain(a[j]);
    PaddedIsAppending(a, lines, j, name);
    PaddedIsAppending(a, after, j, name);
    var k := FindLastAppended(a, lines, name, j);
    var i := FindLastAppended(a, after, name, j);
    LastAppendedDecides(a, lines, name, k);
    LastAppendedDecides(a, after, name, i);
    LastAppendedIsNotOutlasted(a, lines, name, k);
    LastAppendedIsNotOutlasted(a, after, name, i);
    KeyAfter(a, b, lines, i);
    KeyAfter(a, b, lines, k);
    assert AppendsSaying(a, lines, i, name);
    if !Plain(a[k]) {
      PaddedIsMissing(after, a[k]);
    }
    if !Assigned(after, a[k].0) {
      assert AppendsSaying(a, after, k, name);
      assert i == k;
    } else {
      assert Mentions(b, a[k].0) && i < k;
    }
  }

  /** What is stored under a saved name is what some key says. */
  lemma SomeKeySays(a: Dict<string>, lines: seq<EnvLine>, name: string) returns (k: nat)
    requires Lookup(a, name).Some? && name != "" && StoredIn(NextLines(a, lines), name).Some?
    ensures SaysSome(a, k, name) && StoredIn(NextLines(a, lines), name) == Says(a[k], name)
  {
    var f := NextMissing(MissingFrom(lines));
    StoredInConcat(FlatMap(Nexting(a), lines), FlatMap(f, a), name);
    if StoredIn(FlatMap(f, a), name).Some? {
      k := SomeSayer(f, a, name);
      AppendedSays(a, lines, k, name);
    } else {
      var t := SomeSayer(Nexting(a), lines, name);
      k := SomeLineSays(a, lines[t], name);
    }
  }

  lemma SomeLineSays(a: Dict<string>, line: EnvLine, name: string) returns (k: nat)
    requires Lookup(a, name).Some? && name != "" && StoredIn(NextLine(a, line), name).Some?
    ensures SaysSome(a, k, name) && StoredIn(NextLine(a, line), name) == Says(a[k], name)
  {
    if Untouched(a, line) {
      StoredIsSomeLine([line], name);
      assert false;
    } else {
      LookupIsEntry(a, line.name);
      var key := (line.name, Lookup(a, line.name).value);
      k :| 0 <= k < |a| && a[k] == key;
    }
  }

  lemma SayerIsStored(a: Dict<string>, lines: seq<EnvLine>, k: nat, name: string)
    requires DistinctKeys(a) && SaysSome(a, k, name)
    ensures StoredIn(NextLines(a, lines), name).Some?
  {
    StoredIsSomeLine(Block(a[k]), name);
    var l :| l in Block(a[k]) && Storing(name)(l) && l.value == Says(a[k], name).value;
    assert WrittenFor(a, a[k], l);
    WrittenIsThere(a, lines, a[k], l);
    SomeLineIsStored(NextLines(a, lines), name);
  }

  lemma NotOutlasted(a: Dict<string>, name: string)
    requires !PaddedSays(a, name)
    ensures forall k: nat :: !Outlasted(a, k, name)
  {
  }

  /** If all keys that say something are plain and one of them is mentioned, they all say the
      same. */
  lemma AllSayTheSame(a: Dict<string>, b: Dict<string>, text: string, name: string, k: nat)
    requires DistinctKeys(a) && Lookup(a, name).Some? && name != ""
    requires Agrees(a, b, name) && !PaddedSays(a, name) && SaysSome(a, k, name) && Mentions(b, a[k].0)
    ensures StoredIn(NextLines(a, After(b, LinesOf(text))), name) == StoredIn(NextLines(a, LinesOf(text)), name)
  {
    NotOutlasted(a, name);
    SayerIsStored(a, LinesOf(text), k, name);
    SayerIsStored(a, After(b, LinesOf(text)), k, name);
    var i := SomeKeySays(a, LinesOf(text), name);
    var j := SomeKeySays(a, After(b, LinesOf(text)), name);
  }

  // ------------------------------------------------------------ no key is mentioned

  ghost predicate NoneMentioned(a: Dict<string>, b: Dict<string>, name: string) {
    forall k: nat :: SaysSome(a, k, name) ==> !Mentions(b, a[k].0)
  }

  function StoringOf(a: Dict<string>, name: string): EnvLine -> seq<EnvLine> {
    (line: EnvLine) => Filter(NextLine(a, line), Storing(name))
  }

  lemma UntouchedStoresNothing(a: Dict<string>, line: EnvLine, name: string)
    requires Lookup(a, name).Some? && name != "" && Untouched(a, line)
    ensures StoringOf(a, name)(line) == []
  {
    FilterOne(line, Storing(name));
  }

  lemma SaysNothing(key: (string, string), name: string)
    requires Says(key, name).None?
    ensures Filter(Block(key), Storing(name)) == []
  {
    forall l | l in Block(key) ensures !Storing(name)(l) {
      if Storing(name)(l) {
        SomeLineIsStored(Block(key), name);
      }
    }
    FilterOfNone(Block(key), Storing(name));
  }

  /** A line that `b` writes, and `a` renews, says nothing. */
  lemma WrittenSaysNothing(a: Dict<string>, b: Dict<string>, key: (string, string), l: EnvLine, name: string)
    requires Lookup(a, name).Some? && name != "" && NoneMentioned(a, b, name) && WrittenFor(b, key, l)
    ensures StoringOf(a, name)(l) == []
  {
    if Untouched(a, l) {
      UntouchedStoresNothing(a, l, name);
    } else {
      LookupIsEntry(a, l.name);
      var mine := (l.name, Lookup(a, l.name).value);
      var k :| 0 <= k < |a| && a[k] == mine;
      assert Mentions(b, a[k].0);
      assert !SaysSome(a, k, name);
      if Valued(mine) {
        SaysNothing(mine, name);
      }
    }
  }

  lemma NextSaysNothing(a: Dict<string>, b: Dict<string>, line: EnvLine, name: string)
    requires Disjoint(a, b) && Lookup(a, name).Some? && name != "" && NoneMentioned(a, b, name)
    ensures FlatMap(StoringOf(a, name), NextLine(b, line)) == StoringOf(a, name)(line)
  {
    if Untouched(b, line) {
      FlatMapOne(StoringOf(a, name), line);
    } else {
      DisjointLookup(b, a, line.name);
      UntouchedStoresNothing(a, line, name);
      LookupIsEntry(b, line.name);
      var key := (line.name, Lookup(b, line.name).value);
      forall l | l in NextLine(b, line) ensures StoringOf(a, name)(l) == [] {
        assert WrittenFor(b, key, l);
        WrittenSaysNothing(a, b, key, l, name);
      }
      FlatMapOfNothing(StoringOf(a, name), NextLine(b, line));
    }
  }

  lemma AppendedSayNothing(a: Dict<string>, b: Dict<string>, missing: string -> bool, name: string)
    requires Lookup(a, name).Some? && name != "" && NoneMentioned(a, b, name)
    ensures FlatMap(StoringOf(a, name), FlatMap(NextMissing(missing), b)) == []
  {
    var more := FlatMap(NextMissing(missing), b);
    forall l | l in more ensures StoringOf(a, name)(l) == [] {
      FlatMapMember(NextMissing(missing), b, l);
      var key :| key in b && l in NextMissing(missing)(key);
      WrittenSaysNothing(a, b, key, l, name);
    }
    FlatMapOfNothing(StoringOf(a, name), more);
  }

  lemma {:induction false} TrimmedSays(f: EnvLine -> seq<EnvLine>, lines: seq<EnvLine>)
    requires f(BLANK) == []
    ensures FlatMap(f, Trim(lines)) == FlatMap(f, lines)
  {
    if lines != [] && lines[|lines| - 1] == BLANK {
      TrimmedSays(f, lines[..|lines| - 1]);
    }
  }

  lemma FileSays(f: EnvLine -> seq<EnvLine>, lines: seq<EnvLine>)
    requires f(BLANK) == []
    ensures FlatMap(f, FileOf(lines)) == FlatMap(f, lines)
  {
    TrimmedSays(f, lines);
    FlatMapOne(f, BLANK);
  }

  /** What the existing lines store under the name is the same after the save of `b`. */
  lemma KeptSaysTheSame(a: Dict<string>, b: Dict<string>, lines: seq<EnvLine>, name: string)
    requires Disjoint(a, b) && Lookup(a, name).Some? && name != "" && NoneMentioned(a, b, name)
    ensures FlatMap(StoringOf(a, name), After(b, lines)) == FlatMap(StoringOf(a, name), lines)
  {
    var f, more := StoringOf(a, name), FlatMap(NextMissing(MissingFrom(lines)), b);
    UntouchedStoresNothing(a, BLANK, name);
    FileSays(f, NextLines(b, lines));
    FlatMapConcat(f, FlatMap(Nexting(b), lines), more);
    forall line | line in lines ensures FlatMap(f, Nexting(b)(line)) == f(line) {
      NextSaysNothing(a, b, line, name);
    }
    FlatMapOfFlatMap(f, Nexting(b), f, lines);
    AppendedSayNothing(a, b, MissingFrom(lines), name);
  }

  lemma {:induction false} StoredByFilter(f: EnvLine -> seq<EnvLine>, h: EnvLine -> seq<EnvLine>, lines: seq<EnvLine>, name: string)
    requires forall line :: line in lines ==> h(line) == Filter(f(line), Storing(name))
    ensures Filter(FlatMap(f, lines), Storing(name)) == FlatMap(h, lines)
  {
    if lines != [] {
      var n := |lines| - 1;
      StoredByFilter(f, h, lines[..n], name);
      FilterConcat(FlatMap(f, lines[..n]), f(lines[n]), Storing(name));
    }
  }

  lemma {:induction false} AppendedAlike(a: Dict<string>, lines: seq<EnvLine>, after: seq<EnvLine>, some: Dict<string>, name: string)
    requires forall key :: key in some && Valued(key) && Says(key, name).Some? ==>
      (Assigned(lines, key.0) <==> Assigned(after, key.0))
    ensures StoredIn(FlatMap(NextMissing(MissingFrom(lines)), some), name) ==
      StoredIn(FlatMap(NextMissing(MissingFrom(after)), some), name)
  {
    if some != [] {
      var n := |some| - 1;
      var f, g := NextMissing(MissingFrom(lines)), NextMissing(MissingFrom(after));
      AppendedAlike(a, lines, after, some[..n], name);
      assert some[n] in some;
      AppendedSays(some, lines, n, name);
      AppendedSays(some, after, n, name);
      StoredInConcat(FlatMap(f, some[..n]), f(some[n]), name);
      StoredInConcat(FlatMap(g, some[..n]), g(some[n]), name);
    }
  }

  lemma NoneMentionedStays(a: Dict<string>, b: Dict<string>, text: string, name: string)
    requires DistinctKeys(a) && AllNamesValid(a) && DistinctKeys(b) && Disjoint(a, b)
    requires Lookup(a, name).Some? && name != "" && NoneMentioned(a, b, name)
    ensures StoredIn(NextLines(a, After(b, LinesOf(text))), name) == StoredIn(NextLines(a, LinesOf(text)), name)
  {
    var lines, after := LinesOf(text), After(b, LinesOf(text));
    var f, h := Nexting(a), StoringOf(a, name);
    KeptSaysTheSame(a, b, lines, name);
    StoredByFilter(f, h, lines, name);
    StoredByFilter(f, h, after, name);
    StoredAlike(FlatMap(f, lines), FlatMap(f, after), name);
    forall key | key in a && Valued(key) && Says(key, name).Some?
      ensures Assigned(lines, key.0) <==> Assigned(after, key.0)
    {
      var k :| 0 <= k < |a| && a[k] == key;
      assert SaysSome(a, k, name);
      KeyAfter(a, b, lines, k);
    }
    AppendedAlike(a, lines, after, a, name);
    StoredInConcat(FlatMap(f, lines), FlatMap(NextMissing(MissingFrom(lines)), a), name);
    StoredInConcat(FlatMap(f, after), FlatMap(NextMissing(MissingFrom(after)), a), name);
  }

  /** Agreement makes what `a` stores independent of an earlier save of `b`. */
  lemma AgreementIsEnough(a: Dict<string>, b: Dict<string>, text: string, name: string)
    requires DistinctKeys(a) && AllNamesValid(a) && DistinctKeys(b) && Disjoint(a, b)
    requires Lookup(a, name).Some? && name != "" && Agrees(a, b, name)
    ensures Stored(Saved(Saved(text, b), a), name) == Stored(Saved(text, a), name)
  {
    AfterIsWellParsed(b, text);
    SavedStores(text, a, name);
    SavedStores(Saved(text, b), a, name);
    if PaddedSays(a, name) {
      PaddedDecide(a, b, text, name);
    } else if NoneMentioned(a, b, name) {
      NoneMentionedStays(a, b, text, name);
    } else {
      var k: nat :| SaysSome(a, k, name) && Mentions(b, a[k].0);
      AllSayTheSame(a, b, text, name, k);
    }
  }

  // ------------------------------------------------------------ agreement is needed

  /** A file that clears some names. */
  function ClearingFile(some: Dict<string>): string {
    TextOf(Map(Clearing(), some))
  }

  ghost predicate PlainPart(some: Dict<string>, keys: Dict<string>) {
    forall key :: key in some ==> key in keys && PlainValued(key)
  }

  lemma ClearingFileLines(some: Dict<string>, keys: Dict<string>)
    requires AllNamesValid(keys) && PlainPart(some, keys)
    ensures LinesOf(ClearingFile(some)) == Map(ClearingLine(), some)
    ensures forall k :: 0 <= k < |some| ==> Map(ClearingLine(), some)[k].name == some[k].0
  {
    forall key | key in some ensures Clearable(key) {
      EntryIsValid(keys, key);
    }
    ClearingLines(some);
    TextOfSplits(Map(Clearing(), some));
  }

  /** The file names exactly the given keys. */
  lemma ClearingAssigns(some: Dict<string>, keys: Dict<string>, k: nat)
    requires DistinctKeys(keys) && AllNamesValid(keys) && PlainPart(some, keys) && k < |keys|
    ensures Assigned(LinesOf(ClearingFile(some)), keys[k].0) <==> keys[k] in some
  {
    ClearingFileLines(some, keys);
    EntryIsValid(keys, keys[k]);
    var lines := Map(ClearingLine(), some);
    if keys[k] in some {
      var t :| 0 <= t < |some| && some[t] == keys[k];
      assert lines[t].name == keys[k].0;
    } else if Assigned(lines, keys[k].0) {
      var t :| 0 <= t < |lines| && lines[t].name == keys[k].0;
      assert some[t] in some;
      EntryIsLookup(keys, some[t]);
      EntryIsLookup(keys, keys[k]);
    }
  }

  /** What `a` stores under `name` in a file does not depend on an earlier save of `b`. */
  ghost predicate Steady(a: Dict<string>, b: Dict<string>, name: string) {
    forall text :: Stored(Saved(Saved(text, b), a), name) == Stored(Saved(text, a), name)
  }

  lemma SteadyLines(a: Dict<string>, b: Dict<string>, name: string, text: string)
    requires Steady(a, b, name) && name != ""
    ensures StoredIn(NextLines(a, After(b, LinesOf(text))), name) == StoredIn(NextLines(a, LinesOf(text)), name)
    ensures WellParsed(LinesOf(text)) && WellParsed(After(b, LinesOf(text)))
  {
    TextIsWellParsed(text);
    AfterIsWellParsed(b, text);
    SavedStores(text, a, name);
    SavedStores(Saved(text, b), a, name);
    assert Stored(Saved(Saved(text, b), a), name) == Stored(Saved(text, a), name);
  }

  ghost predicate Separate(a: Dict<string>, b: Dict<string>) {
    DistinctKeys(a) && AllNamesValid(a) && DistinctKeys(b) && AllNamesValid(b) && Disjoint(a, b)
  }

  /** All plain keys with a value but those that are dropped. */
  function PlainBut(keys: Dict<string>, dropped: set<string>): Dict<string> {
    Filter(keys, (key: (string, string)) => PlainValued(key) && key.0 !in dropped)
  }

  /** The keys that a save appends to the file of all plain keys but the dropped ones. */
  lemma AppendsDropped(a: Dict<string>, b: Dict<string>, dropped: set<string>, k: nat, name: string)
    requires Separate(a, b)
    requires SaysSome(a, k, name)
    ensures
      var lines := LinesOf(ClearingFile(PlainBut(a, dropped)));
      && (AppendsSaying(a, lines, k, name) <==> !Plain(a[k]) || a[k].0 in dropped)
      && (AppendsSaying(a, After(b, lines), k, name) <==>
          !Plain(a[k]) || (a[k].0 in dropped && !Mentions(b, a[k].0)))
  {
    var some := PlainBut(a, dropped);
    var text := ClearingFile(some);
    assert PlainPart(some, a);
    ClearingAssigns(some, a, k);
    KeyAfter(a, b, LinesOf(text), k);
    AfterIsWellParsed(b, text);
    if !Plain(a[k]) {
      PaddedIsMissing(After(b, LinesOf(text)), a[k]);
    }
  }

  /** `k` is the last key that says something, of the padded ones and those named. */
  ghost predicate LastOf(keys: Dict<string>, name: string, named: set<string>, k: nat) {
    && SaysSome(keys, k, name) && (!Plain(keys[k]) || keys[k].0 in named)
    && forall t: nat :: k < t && SaysSome(keys, t, name) ==> Plain(keys[t]) && keys[t].0 !in named
  }

  lemma DroppedSay(a: Dict<string>, b: Dict<string>, dropped: set<string>, left: set<string>, k: nat, i: nat, name: string)
    requires Separate(a, b) && Steady(a, b, name) && name != ""
    requires forall n :: n in left <==> n in dropped && !Mentions(b, n)
    requires LastOf(a, name, dropped, k) && LastOf(a, name, left, i)
    ensures Says(a[k], name) == Says(a[i], name)
  {
    var text := ClearingFile(PlainBut(a, dropped));
    var lines := LinesOf(text);
    SteadyLines(a, b, name, text);
    AppendsDropped(a, b, dropped, k, name);
    AppendsDropped(a, b, dropped, i, name);
    forall t: nat | k < t ensures !AppendsSaying(a, lines, t, name) {
      if SaysSome(a, t, name) {
        AppendsDropped(a, b, dropped, t, name);
      }
    }
    forall t: nat | i < t ensures !AppendsSaying(a, After(b, lines), t, name) {
      if SaysSome(a, t, name) {
        AppendsDropped(a, b, dropped, t, name);
      }
    }
    LastAppendedDecides(a, lines, name, k);
    LastAppendedDecides(a, After(b, lines), name, i);
  }

  lemma {:induction false} LastPadded(keys: Dict<string>, name: string, j: nat) returns (w: nat)
    requires SaysSome(keys, j, name) && !Plain(keys[j])
    ensures j <= w && LastOf(keys, name, {}, w)
    decreases |keys| - j
  {
    if t: nat :| j < t && SaysSome(keys, t, name) && !Plain(keys[t]) {
      w := LastPadded(keys, name, t);
    } else {
      w := j;
    }
  }

  lemma LastOfNamed(keys: Dict<string>, name: string, named: set<string>, k: nat)
    requires SaysSome(keys, k, name) && keys[k].0 in named && !Outlasted(keys, k, name)
    requires forall t :: k < t < |keys| ==> keys[t].0 !in named
    ensures LastOf(keys, name, named, k)
  {
    forall t: nat | k < t && SaysSome(keys, t, name) ensures Plain(keys[t]) && keys[t].0 !in named {
      assert !Plain(keys[t]) ==> Outlasted(keys, k, name);
    }
  }

  /** With a padded key that says something: a mentioned key after it says the same. */
  lemma SaysAsPadded(a: Dict<string>, b: Dict<string>, k: nat, j: nat, name: string)
    requires Separate(a, b) && Steady(a, b, name) && name != ""
    requires SaysSome(a, k, name) && Plain(a[k]) && Mentions(b, a[k].0) && !Outlasted(a, k, name)
    requires LastOf(a, name, {}, j)
    ensures Says(a[k], name) == Says(a[j], name)
  {
    forall t | k < t < |a| ensures a[t].0 !in {a[k].0} {
    }
    LastOfNamed(a, name, {a[k].0}, k);
    DroppedSay(a, b, {a[k].0}, {}, k, j, name);
  }

  lemma LeftIs(b: Dict<string>, other: string, mentioned: string)
    requires Mentions(b, mentioned) && !Mentions(b, other)
    ensures forall n :: n in {other} <==> n in {other, mentioned} && !Mentions(b, n)
  {
  }

  lemma LastOfBoth(keys: Dict<string>, name: string, i: nat, k: nat)
    requires DistinctKeys(keys) && i < k
    requires SaysSome(keys, k, name) && !Outlasted(keys, k, name)
    requires SaysSome(keys, i, name) && !Outlasted(keys, i, name)
    ensures LastOf(keys, name, {keys[i].0, keys[k].0}, k) && LastOf(keys, name, {keys[i].0}, i)
  {
    forall t | k < t < |keys| ensures keys[t].0 !in {keys[i].0, keys[k].0} {
    }
    forall t | i < t < |keys| ensures keys[t].0 !in {keys[i].0} {
    }
    LastOfNamed(keys, name, {keys[i].0, keys[k].0}, k);
    LastOfNamed(keys, name, {keys[i].0}, i);
  }

  /** A plain key that is not mentioned says the same as a mentioned one after it. */
  lemma SaysAsBefore(a: Dict<string>, b: Dict<string>, i: nat, k: nat, name: string)
    requires Separate(a, b) && Steady(a, b, name) && name != "" && i < k
    requires SaysSome(a, k, name) && Plain(a[k]) && Mentions(b, a[k].0) && !Outlasted(a, k, name)
    requires SaysSome(a, i, name) && Plain(a[i]) && !Mentions(b, a[i].0) && !Outlasted(a, i, name)
    ensures Says(a[i], name) == Says(a[k], name)
  {
    var both, left := {a[i].0, a[k].0}, {a[i].0};
    LeftIs(b, a[i].0, a[k].0);
    LastOfBoth(a, name, i, k);
    DroppedSay(a, b, both, left, k, i, name);
  }

  lemma AgreesWithPadded(a: Dict<string>, b: Dict<string>, i: nat, k: nat, name: string)
    requires Separate(a, b) && Steady(a, b, name) && name != "" && PaddedSays(a, name) && i < k
    requires SaysSome(a, i, name) && !Outlasted(a, i, name)
    requires SaysSome(a, k, name) && !Outlasted(a, k, name) && Plain(a[k]) && Mentions(b, a[k].0)
    ensures Says(a[i], name) == Says(a[k], name)
  {
    var p: nat :| SaysSome(a, p, name) && !Plain(a[p]);
    var j := LastPadded(a, name, p);
    SaysAsPadded(a, b, k, j, name);
    if !Plain(a[i]) {
      assert i == j;
    } else if Mentions(b, a[i].0) {
      SaysAsPadded(a, b, i, j, name);
    } else {
      SaysAsBefore(a, b, i, k, name);
    }
  }

  // ------------------------------------------------------------ all keys plain

  /** All plain keys with a value, one of them last. */
  function WithLast(keys: Dict<string>, k: nat): Dict<string>
    requires k < |keys|
  {
    PlainBut(keys, {keys[k].0}) + [keys[k]]
  }

  lemma WithLastIsAll(keys: Dict<string>, k: nat, t: nat)
    requires DistinctKeys(keys) && k < |keys| && t < |keys| && PlainValued(keys[k]) && PlainValued(keys[t])
    ensures keys[t] in WithLast(keys, k) && PlainPart(WithLast(keys, k), keys)
  {
    assert keys[t].0 == keys[k].0 <==> t == k;
  }

  /** When no padded key says anything and all plain keys are there, nothing is said by appended
      keys. */
  lemma NothingSaidByAppended(a: Dict<string>, lines: seq<EnvLine>, name: string)
    requires forall t: nat :: !AppendsSaying(a, lines, t, name)
    ensures StoredIn(NextLines(a, lines), name) == StoredIn(FlatMap(Nexting(a), lines), name)
  {
    var f := NextMissing(MissingFrom(lines));
    StoredInConcat(FlatMap(Nexting(a), lines), FlatMap(f, a), name);
    if StoredIn(FlatMap(f, a), name).Some? {
      var t := SomeSayer(f, a, name);
      AppendedSays(a, lines, t, name);
    }
  }

  /** What a line of a plain name becomes. */
  lemma RenewedLine(keys: Dict<string>, line: EnvLine, key: (string, string))
    requires DistinctKeys(keys) && AllNamesValid(keys) && key in keys && Valued(key) && line.name == key.0
    ensures Nexting(keys)(line) == Block(key)
  {
    EntryIsValid(keys, key);
    EntryIsLookup(keys, key);
  }

  lemma LastLineDecides(f: EnvLine -> seq<EnvLine>, init: seq<EnvLine>, last: EnvLine, name: string)
    requires StoredIn(f(last), name).Some?
    ensures StoredIn(FlatMap(f, init + [last]), name) == StoredIn(f(last), name)
  {
    FlatMapConcat(f, init, [last]);
    FlatMapOne(f, last);
    StoredInConcat(FlatMap(f, init), f(last), name);
  }

  lemma WithLastLines(a: Dict<string>, k: nat) returns (init: seq<EnvLine>, last: EnvLine)
    requires DistinctKeys(a) && AllNamesValid(a) && k < |a| && PlainValued(a[k])
    ensures LinesOf(ClearingFile(WithLast(a, k))) == init + [last] && last.name == a[k].0
  {
    var some, others := WithLast(a, k), PlainBut(a, {a[k].0});
    WithLastIsAll(a, k, k);
    ClearingFileLines(some, a);
    MapAppend(ClearingLine(), others, a[k]);
    init, last := Map(ClearingLine(), others), ClearingLine()(a[k]);
    assert some[|others|] == a[k] && Map(ClearingLine(), some)[|others|] == last;
  }

  /** With one key last in the file, that key decides. */
  lemma LastDecides(a: Dict<string>, k: nat, name: string)
    requires DistinctKeys(a) && AllNamesValid(a) && SaysSome(a, k, name) && Plain(a[k]) && !PaddedSays(a, name)
    ensures StoredIn(NextLines(a, LinesOf(ClearingFile(WithLast(a, k)))), name) == Says(a[k], name)
  {
    var some := WithLast(a, k);
    var lines := LinesOf(ClearingFile(some));
    WithLastIsAll(a, k, k);
    forall t: nat ensures !AppendsSaying(a, lines, t, name) {
      if SaysSome(a, t, name) {
        WithLastIsAll(a, k, t);
        ClearingAssigns(some, a, t);
      }
    }
    NothingSaidByAppended(a, lines, name);
    var init, last := WithLastLines(a, k);
    RenewedLine(a, last, a[k]);
    LastLineDecides(Nexting(a), init, last, name);
  }

  lemma ClearedIsOthers(a: Dict<string>, b: Dict<string>, some: Dict<string>)
    requires Separate(a, b) && PlainPart(some, a)
    ensures FlatMap(Nexting(b), LinesOf(ClearingFile(some))) == LinesOf(ClearingFile(some))
  {
    var lines := LinesOf(ClearingFile(some));
    ClearingFileLines(some, a);
    forall line | line in lines ensures Nexting(b)(line) == [Same(line)] {
      var k :| 0 <= k < |some| && Map(ClearingLine(), some)[k] == line;
      assert some[k] in some;
      EntryIsLookup(a, some[k]);
      DisjointLookup(a, b, line.name);
    }
    FlatMapOfOnes(Nexting(b), Same, lines);
    assert Map(Same, lines) == lines;
  }

  lemma OthersAppended(a: Dict<string>, b: Dict<string>, some: Dict<string>, key: (string, string))
    requires Separate(a, b) && PlainPart(some, a) && key in b
    ensures !Assigned(LinesOf(ClearingFile(some)), key.0)
  {
    var lines := LinesOf(ClearingFile(some));
    ClearingFileLines(some, a);
    forall k | 0 <= k < |lines| ensures lines[k].name != key.0 {
      assert some[k] in some;
    }
  }

  lemma PlainIsUntouched(a: Dict<string>, b: Dict<string>, some: Dict<string>)
    requires Separate(a, b) && PlainPart(some, a)
    ensures NextLines(b, LinesOf(ClearingFile(some))) == LinesOf(ClearingFile(some)) + FlatMap(ValuedBlock(), b)
  {
    var missing := MissingFrom(LinesOf(ClearingFile(some)));
    ClearedIsOthers(a, b, some);
    forall key | key in b ensures NextMissing(missing)(key) == ValuedBlock()(key) {
      OthersAppended(a, b, some, key);
    }
    FlatMapAgrees(NextMissing(missing), ValuedBlock(), b);
  }

  /** What the lines of `b` store under `name` once `a` is saved over them. */
  ghost function SaidOver(a: Dict<string>, b: Dict<string>, name: string): Option<string> {
    StoredIn(FlatMap(Nexting(a), FlatMap(ValuedBlock(), b)), name)
  }

  lemma SayingLine(key: (string, string), name: string) returns (l: EnvLine)
    requires Says(key, name).Some?
    ensures l in Block(key) && Storing(name)(l)
  {
    StoredIsSomeLine(Block(key), name);
    l :| l in Block(key) && Storing(name)(l) && l.value == Says(key, name).value;
  }

  lemma MentionedSays(a: Dict<string>, b: Dict<string>, k: nat, name: string)
    requires DistinctKeys(a) && AllNamesValid(a) && SaysSome(a, k, name) && Mentions(b, a[k].0)
    ensures SaidOver(a, b, name).Some?
  {
    var key, l :| WrittenFor(b, key, l) && l.name == a[k].0;
    RenewedLine(a, l, a[k]);
    assert l in ValuedBlock()(key);
    var lines := FlatMap(ValuedBlock(), b);
    FlatMapMember(ValuedBlock(), b, l);
    var said := SayingLine(a[k], name);
    FlatMapMember(Nexting(a), lines, said);
    SomeLineIsStored(FlatMap(Nexting(a), lines), name);
  }

  /** After the save of `b`, the last mentioned key decides, whichever was last before. */
  lemma MentionedDecides(a: Dict<string>, b: Dict<string>, some: Dict<string>, name: string)
    requires Separate(a, b) && PlainPart(some, a) && name != ""
    requires SaidOver(a, b, name).Some?
    requires forall t: nat :: SaysSome(a, t, name) ==> a[t] in some
    ensures StoredIn(NextLines(a, After(b, LinesOf(ClearingFile(some)))), name) == SaidOver(a, b, name)
  {
    var lines := LinesOf(ClearingFile(some));
    var after, written := After(b, lines), FlatMap(ValuedBlock(), b);
    PlainIsUntouched(a, b, some);
    ValuedEndFilled(b);
    assert written != [];
    FilledFile(lines + written);
    forall t: nat ensures !AppendsSaying(a, after, t, name) {
      if SaysSome(a, t, name) {
        ClearingAssigns(some, a, t);
        KeyAfter(a, b, lines, t);
      }
    }
    NothingSaidByAppended(a, after, name);
    FlatMapConcat(Nexting(a), lines, written);
    StoredInConcat(FlatMap(Nexting(a), lines), FlatMap(Nexting(a), written), name);
  }

  lemma SaysAsMentioned(a: Dict<string>, b: Dict<string>, k: nat, x: nat, name: string)
    requires Separate(a, b) && Steady(a, b, name) && name != "" && !PaddedSays(a, name)
    requires SaysSome(a, k, name) && Mentions(b, a[k].0) && SaysSome(a, x, name)
    ensures Says(a[x], name) == SaidOver(a, b, name)
  {
    var some := WithLast(a, x);
    SteadyLines(a, b, name, ClearingFile(some));
    assert Plain(a[x]);
    LastDecides(a, x, name);
    MentionedSays(a, b, k, name);
    WithLastIsAll(a, x, x);
    forall t: nat | SaysSome(a, t, name) ensures a[t] in some {
      WithLastIsAll(a, x, t);
    }
    MentionedDecides(a, b, some, name);
  }

  /** Without agreement, some file shows which save came first. */
  lemma AgreementIsNeeded(a: Dict<string>, b: Dict<string>, name: string)
    requires Separate(a, b) && Steady(a, b, name) && name != ""
    ensures Agrees(a, b, name)
  {
    forall i: nat, k: nat |
      && SaysSome(a, i, name) && !Outlasted(a, i, name)
      && SaysSome(a, k, name) && !Outlasted(a, k, name)
      && Plain(a[k]) && Mentions(b, a[k].0)
      && (i < k || !PaddedSays(a, name))
      ensures Says(a[i], name) == Says(a[k], name)
    {
      if PaddedSays(a, name) {
        AgreesWithPadded(a, b, i, k, name);
      } else {
        SaysAsMentioned(a, b, k, i, name);
        SaysAsMentioned(a, b, k, k, name);
      }
    }
  }

  // ------------------------------------------------------------ main results

  lemma CommutingIsSteady(a: Dict<string>, b: Dict<string>, name: string)
    requires Separate(a, b) && KeepsToKeys(b) && Commute(a, b) && Lookup(a, name).Some?
    ensures name != "" && Steady(a, b, name)
  {
    LookupIsEntry(a, name);
    EntryIsValid(a, (name, Lookup(a, name).value));
    DisjointLookup(a, b, name);
    forall text ensures Stored(Saved(Saved(text, b), a), name) == Stored(Saved(text, a), name) {
      EarlierSaveStays(text, a, b, name);
      assert Stored(Saved(Saved(text, a), b), name) == Stored(Saved(Saved(text, b), a), name);
    }
  }

  lemma SteadyCommutes(a: Dict<string>, b: Dict<string>, text: string, name: string)
    requires Separate(a, b) && KeepsToKeys(b) && AgreesOnAll(a, b) && Lookup(a, name).Some?
    ensures Stored(Saved(Saved(text, a), b), name) == Stored(Saved(Saved(text, b), a), name)
  {
    LookupIsEntry(a, name);
    EntryIsValid(a, (name, Lookup(a, name).value));
    DisjointLookup(a, b, name);
    EarlierSaveStays(text, a, b, name);
    AgreementIsEnough(a, b, text, name);
  }

  lemma OthersCommute(a: Dict<string>, b: Dict<string>, text: string, name: string)
    requires Separate(a, b) && KeepsToKeys(a) && KeepsToKeys(b)
    requires Lookup(a, name).None? && Lookup(b, name).None?
    ensures Stored(Saved(Saved(text, a), b), name) == Stored(Saved(Saved(text, b), a), name)
  {
    EarlierSaveStays(text, a, b, name);
    EarlierSaveStays(text, b, a, name);
    OtherNamesUndisturbed(a);
    OtherNamesUndisturbed(b);
    assert Undisturbed(a, name) && Undisturbed(b, name);
  }

  /** Two saves of disjoint names that keep to their names commute in what they store, whatever the
      file, exactly when they agree: a line of one save that renews a key of the other does not
      change which of that other's lines has the last word. */
  lemma DisjointSavesCommute(a: Dict<string>, b: Dict<string>)
    requires Separate(a, b) && KeepsToKeys(a) && KeepsToKeys(b)
    ensures Commute(a, b) <==> AgreesOnAll(a, b) && AgreesOnAll(b, a)
  {
    assert Separate(b, a);
    if Commute(a, b) {
      assert Commute(b, a);
      forall name | Lookup(a, name).Some? ensures Agrees(a, b, name) {
        CommutingIsSteady(a, b, name);
        AgreementIsNeeded(a, b, name);
      }
      forall name | Lookup(b, name).Some? ensures Agrees(b, a, name) {
        CommutingIsSteady(b, a, name);
        AgreementIsNeeded(b, a, name);
      }
    }
    if AgreesOnAll(a, b) && AgreesOnAll(b, a) {
      forall text, name ensures Stored(Saved(Saved(text, a), b), name) == Stored(Saved(Saved(text, b), a), name) {
        if Lookup(a, name).Some? {
          SteadyCommutes(a, b, text, name);
        } else if Lookup(b, name).Some? {
          SteadyCommutes(b, a, text, name);
        } else {
          OthersCommute(a, b, text, name);
        }
      }
    }
  }

  lemma StorableMentions(a: Dict<string>, b: Dict<string>, k: nat)
    requires Separate(a, b) && Storable(b) && k < |a|
    ensures !Mentions(b, a[k].0)
  {
    forall key, l | WrittenFor(b, key, l) ensures l.name != a[k].0 {
      EntryIsValid(b, key);
      StorableBlock(key);
      EntryIsLookup(b, key);
      EntryIsLookup(a, a[k]);
      DisjointLookup(a, b, a[k].0);
    }
  }

  /** Keys that read back always commute with others that do. */
  lemma StorableSavesCommute(a: Dict<string>, b: Dict<string>)
    requires Separate(a, b) && Storable(a) && Storable(b)
    ensures Commute(a, b)
  {
    StorableKeepsToKeys(a);
    StorableKeepsToKeys(b);
    DisjointSavesCommute(a, b);
    forall name ensures Agrees(a, b, name) && Agrees(b, a, name) {
      forall k: nat | k < |a| ensures !Mentions(b, a[k].0) {
        StorableMentions(a, b, k);
      }
      forall k: nat | k < |b| ensures !Mentions(a, b[k].0) {
        StorableMentions(b, a, k);
      }
    }
  }

  // ------------------------------------------------------------ two saves that do not commute

  /** A plain name and a short value. */
  predicate Writable(name: string, value: string) {
    ValidName(name) && Strip(name) == name && Strip(value) == value != "" && Unbroken(value)
  }

  /** The line of a name and a value. */
  function Line(name: string, value: string): EnvLine {
    EnvLine(Assignment(name, value), name, value)
  }

  lemma WritableLine(name: string, value: string)
    requires Writable(name, value)
    ensures ReadsAsItself(Line(name, value)) && Assignment(name, value) != ""
  {
    AssignmentParses(name, value);
    NamesAreUnbroken(name);
    AssignmentUnbroken(name, value);
  }

  lemma EmptyLine(name: string)
    requires ValidName(name) && Strip(name) == name
    ensures ReadsAsItself(Line(name, "")) && Assignment(name, "") != ""
  {
    NamesAreUnbroken(name);
    ClearedParses(name);
    var s := Assignment(name, "");
    assert s == name + "=";
    StripOfStripped(s);
    EqualsAtIs(s, |name|);
    ParsesAs(s, |name|);
    assert s[..|name|] == name && s[|name| + 1..] == "";
  }

  /** A value that brings a second line with it. */
  function Broken(value: string, more: string): string {
    value + "\n" + more
  }

  lemma BrokenEntry(name: string, value: string, more: string)
    requires Writable(name, value) && more != "" && !IsSpace(more[|more| - 1])
    ensures Valued((name, Broken(value, more)))
    ensures Entry((name, Broken(value, more))) == Assignment(name, value) + "\n" + more
  {
    var all := Broken(value, more);
    assert all[0] == value[0] && all[|all| - 1] == more[|more| - 1];
    assert !IsSpace(Strip(value)[0]);
    StripOfStripped(all);
    assert Assignment(name, all) == Assignment(name, value) + "\n" + more;
  }

  /** A value with one line feed is written as two lines. */
  lemma TwoLines(name: string, value: string, second: EnvLine)
    requires Writable(name, value) && ReadsAsItself(second)
    requires second.raw != "" && !IsSpace(second.raw[|second.raw| - 1])
    ensures Valued((name, Broken(value, second.raw)))
    ensures Block((name, Broken(value, second.raw))) == [Line(name, value), second]
  {
    var first := Line(name, value);
    BrokenEntry(name, value, second.raw);
    WritableLine(name, value);
    SplitConcat(first.raw, second.raw);
    OneLine(first.raw);
    OneLine(second.raw);
    PiecesOfTwo(first.raw, second.raw);
    ParsedTwo([first.raw, second.raw]);
  }

  lemma PiecesOfTwo(first: string, second: string)
    requires Unbroken(first) && first != "" && Unbroken(second) && second != ""
    ensures Pieces(first + "\n" + second) == [first, second]
  {
    SplitConcat(first, second);
    OneLine(first);
    OneLine(second);
    assert [first] + [second] == [first, second];
  }

  /** The names and values of two saves: `told` also stands in the value of `telling`, and
      `telling` in that of `renewing`. */
  datatype Names = Names(telling: string, told: string, renewing: string)

  ghost predicate Suitable(n: Names, x: string, one: string, two: string) {
    && Writable(n.telling, x) && Writable(n.told, one) && Writable(n.told, two) && Writable(n.renewing, x)
    && n.telling != n.told && n.telling != n.renewing && n.told != n.renewing && one != two
  }

  /** The key whose value brings an assignment of the other one with it. */
  function Telling(n: Names, x: string, one: string): (string, string) {
    (n.telling, Broken(x, Assignment(n.told, one)))
  }

  function Renewing(n: Names, x: string): (string, string) {
    (n.renewing, Broken(x, Assignment(n.telling, "")))
  }

  lemma TellingBlock(n: Names, x: string, one: string)
    requires Writable(n.telling, x) && Writable(n.told, one)
    ensures Valued(Telling(n, x, one)) && Block(Telling(n, x, one)) == [Line(n.telling, x), Line(n.told, one)]
  {
    WritableLine(n.told, one);
    AssignmentShape(n.told, one);
    assert !IsSpace(Strip(one)[|one| - 1]);
    TwoLines(n.telling, x, Line(n.told, one));
  }

  lemma RenewingBlock(n: Names, x: string)
    requires Writable(n.renewing, x) && ValidName(n.telling) && Strip(n.telling) == n.telling
    ensures Valued(Renewing(n, x)) && Block(Renewing(n, x)) == [Line(n.renewing, x), Line(n.telling, "")]
  {
    EmptyLine(n.telling);
    var cleared := Assignment(n.telling, "");
    assert cleared[|cleared| - 1] == '=';
    TwoLines(n.renewing, x, Line(n.telling, ""));
  }

  lemma TellingLines(n: Names, x: string, one: string, two: string)
    requires Suitable(n, x, one, two)
    ensures Valued(Telling(n, x, one)) && Block(Telling(n, x, one)) == [Line(n.telling, x), Line(n.told, one)]
    ensures Valued((n.told, two)) && Block((n.told, two)) == [Line(n.told, two)]
    ensures Valued(Renewing(n, x)) && Block(Renewing(n, x)) == [Line(n.renewing, x), Line(n.telling, "")]
  {
    TellingBlock(n, x, one);
    RenewingBlock(n, x);
    StorableBlock((n.told, two));
  }

  lemma LastLineSays(first: EnvLine, last: EnvLine, name: string)
    requires last.name == name && last.value != ""
    ensures StoredIn([first, last], name) == Some(last.value) && StoredIn([last], name) == Some(last.value)
  {
    assert [first, last] == [first] + [last] && [last] == [] + [last];
    StoredInOneMore([first], last, name);
    StoredInOneMore([], last, name);
  }

  lemma LookupTwo(a: (string, string), b: (string, string))
    requires a.0 != b.0
    ensures DistinctKeys([a, b]) && Lookup([a, b], a.0).Some? && Lookup([a, b], b.0).Some?
  {
    EntryIsLookup([a, b], a);
    EntryIsLookup([a, b], b);
  }

  /** Every line that stores something stores it under one of some names. */
  ghost predicate StoresWithin(lines: seq<EnvLine>, names: set<string>) {
    forall l :: l in lines && l.value != "" ==> l.name in names
  }

  lemma LinesStoreWithin(first: EnvLine, second: EnvLine, names: set<string>)
    requires first.value != "" ==> first.name in names
    requires second.value != "" ==> second.name in names
    ensures StoresWithin([first, second], names) && StoresWithin([first], names)
  {
  }

  lemma KeepsWithin(keys: Dict<string>, names: set<string>)
    requires forall name :: name in names ==> Lookup(keys, name).Some?
    requires forall key :: key in keys ==> StoresWithin(Block(key), names)
    ensures KeepsToKeys(keys)
  {
    forall key, l | WrittenFor(keys, key, l) && l.name != "" && l.value != "" ensures Lookup(keys, l.name).Some? {
      assert StoresWithin(Block(key), names);
    }
  }

  lemma TwoKeep(p: (string, string), q: (string, string))
    requires p.0 != q.0 && StoresWithin(Block(p), {p.0, q.0}) && StoresWithin(Block(q), {p.0, q.0})
    ensures KeepsToKeys([p, q])
  {
    LookupTwo(p, q);
    KeepsWithin([p, q], {p.0, q.0});
  }

  lemma OneKeeps(r: (string, string))
    requires StoresWithin(Block(r), {r.0})
    ensures KeepsToKeys([r])
  {
    EntryIsLookup([r], r);
    KeepsWithin([r], {r.0});
  }

  lemma BothPlain(p: (string, string), q: (string, string), name: string)
    requires Plain(p) && Plain(q)
    ensures !PaddedSays([p, q], name)
  {
  }

  lemma DisagreesAt(a: Dict<string>, b: Dict<string>, name: string, i: nat, k: nat)
    requires !PaddedSays(a, name) && SaysSome(a, i, name) && SaysSome(a, k, name)
    requires Plain(a[k]) && Mentions(b, a[k].0) && Says(a[i], name) != Says(a[k], name)
    ensures !Agrees(a, b, name)
  {
    NotOutlasted(a, name);
  }

  lemma IsMentioned(r: (string, string), l: EnvLine)
    requires Valued(r) && l in Block(r)
    ensures Mentions([r], l.name)
  {
    assert r in [r] && WrittenFor([r], r, l);
  }

  lemma DisagreeingSaves(a: Dict<string>, b: Dict<string>, name: string)
    requires Separate(a, b) && KeepsToKeys(a) && KeepsToKeys(b) && Lookup(a, name).Some? && !Agrees(a, b, name)
    ensures !Commute(a, b)
  {
    DisjointSavesCommute(a, b);
  }

  lemma TheySay(n: Names, x: string, one: string, two: string)
    requires Suitable(n, x, one, two)
    ensures Says(Telling(n, x, one), n.told) == Some(one) && Says((n.told, two), n.told) == Some(two)
  {
    TellingLines(n, x, one, two);
    LastLineSays(Line(n.telling, x), Line(n.told, one), n.told);
    LastLineSays(Line(n.telling, x), Line(n.told, two), n.told);
  }

  lemma TheyStoreWithin(n: Names, x: string, one: string, two: string)
    requires Suitable(n, x, one, two)
    ensures StoresWithin(Block(Telling(n, x, one)), {n.telling, n.told})
    ensures StoresWithin(Block((n.told, two)), {n.telling, n.told})
    ensures StoresWithin(Block(Renewing(n, x)), {n.renewing})
  {
    TellingLines(n, x, one, two);
    LinesStoreWithin(Line(n.telling, x), Line(n.told, one), {n.telling, n.told});
    LinesStoreWithin(Line(n.told, two), Line(n.told, two), {n.telling, n.told});
    LinesStoreWithin(Line(n.renewing, x), Line(n.telling, ""), {n.renewing});
  }

  lemma TheyAreSeparate(n: Names, x: string, one: string, two: string)
    requires Suitable(n, x, one, two)
    ensures Separate([Telling(n, x, one), (n.told, two)], [Renewing(n, x)])
  {
    LookupTwo(Telling(n, x, one), (n.told, two));
  }

  lemma TheyDisagree(n: Names, x: string, one: string, two: string)
    requires Suitable(n, x, one, two)
    ensures !Agrees([Telling(n, x, one), (n.told, two)], [Renewing(n, x)], n.told)
  {
    var p, q, r := Telling(n, x, one), (n.told, two), Renewing(n, x);
    TellingLines(n, x, one, two);
    TheySay(n, x, one, two);
    IsMentioned(r, Line(n.telling, ""));
    BothPlain(p, q, n.told);
    DisagreesAt([p, q], [r], n.told, 1, 0);
  }

  /** Keeping to one's names is not enough: when the value of one key assigns another, a line that
      merely names the first, written by another save, changes which of the two has the last word. */
  lemma KeepingToKeysIsNotEnough(n: Names, x: string, one: string, two: string)
    requires Suitable(n, x, one, two)
    ensures
      var a, b := [Telling(n, x, one), (n.told, two)], [Renewing(n, x)];
      Separate(a, b) && KeepsToKeys(a) && KeepsToKeys(b) && !Commute(a, b)
  {
    var p, q, r := Telling(n, x, one), (n.told, two), Renewing(n, x);
    TheyAreSeparate(n, x, one, two);
    TheyStoreWithin(n, x, one, two);
    TwoKeep(p, q);
    OneKeeps(r);
    TheyDisagree(n, x, one, two);
    LookupTwo(p, q);
    DisagreeingSaves([p, q], [r], n.told);
  }

  /** Such names and values exist. */
  lemma SuitableNames()
    ensures Suitable(Names("FOO", "BAZ", "BAR"), "x", "1", "2")
  {
    StripOfStripped("FOO");
    StripOfStripped("BAR");
    StripOfStripped("BAZ");
    StripOfStripped("x");
    StripOfStripped("1");
    StripOfStripped("2");
  }

  lemma WrittenOut(n: Names)
    requires n == Names("FOO", "BAZ", "BAR")
    ensures Telling(n, "x", "1") == ("FOO", "x\nBAZ=1") && Renewing(n, "x") == ("BAR", "x\nFOO=")
  {
    assert "BAZ" + "=" + "1" == "BAZ=1" && "FOO" + "=" + "" == "FOO=";
    assert "x" + "\n" + "BAZ=1" == "x\nBAZ=1" && "x" + "\n" + "FOO=" == "x\nFOO=";
  }

  /** Two saves of disjoint names that keep to their names, and do not commute. */
  lemma TwoSavesDoNotCommute()
    ensures
      var a, b := [("FOO", "x\nBAZ=1"), ("BAZ", "2")], [("BAR", "x\nFOO=")];
      Separate(a, b) && KeepsToKeys(a) && KeepsToKeys(b) && !Commute(a, b)
  {
    var n := Names("FOO", "BAZ", "BAR");
    SuitableNames();
    WrittenOut(n);
    KeepingToKeysIsNotEnough(n, "x", "1", "2");
  }
}
