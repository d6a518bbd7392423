/** Saving the same keys a second time: exactly when nothing changes. */
module KeyFileSettling {
  import opened Sequences
  import opened Options
  import opened OrderedDicts
  import opened Text
  import opened KeyFile
  import opened KeyFileText
  import opened KeyFileLines
  import opened KeyFileLaws
  import opened KeyFileSurvival

  /** A line that a save removes: its name is saved without a value. */
  predicate Vanishes(keys: Dict<string>, line: EnvLine) {
    !Untouched(keys, line) && Strip(Lookup(keys, line.name).value) == ""
  }

  /** The lines of a key that a second save does not find again as the key's: all of a padded name,
      all but the first of a plain one. */
  function Extra(key: (string, string)): seq<EnvLine> {
    if Plain(key) && Block(key) != [] then Block(key)[1..] else Block(key)
  }

  ghost predicate ExtraVanishes(keys: Dict<string>) {
    forall key, l :: key in keys && Valued(key) && l in Extra(key) ==> Vanishes(keys, l)
  }

  /** No padded key with a value comes before a plain one. */
  ghost predicate PaddedLast(keys: Dict<string>) {
    forall i, k :: 0 <= i < k < |keys| && Valued(keys[i]) && Valued(keys[k]) && !Plain(keys[i]) ==> !Plain(keys[k])
  }

  ghost predicate Settles(keys: Dict<string>) {
    ExtraVanishes(keys) && PaddedLast(keys)
  }

  ghost predicate SecondSaveIdle(text: string, keys: Dict<string>) {
    Saved(Saved(text, keys), keys) == Saved(text, keys)
  }

  // ------------------------------------------------------------ what the second save appends

  predicate PlainValued(key: (string, string)) {
    Valued(key) && Plain(key)
  }

  predicate PaddedValued(key: (string, string)) {
    Valued(key) && !Plain(key)
  }

  function PaddedEntry(): ((string, string)) -> seq<string> {
    (key: (string, string)) => if PaddedValued(key) then [Entry(key)] else []
  }

  function PaddedBlock(): ((string, string)) -> seq<EnvLine> {
    (key: (string, string)) => if PaddedValued(key) then Block(key) else []
  }

  ghost predicate PlainAssigned(keys: Dict<string>, lines: seq<EnvLine>) {
    forall key :: key in keys && PlainValued(key) ==> Assigned(lines, key.0)
  }

  lemma AssignedBy(lines: seq<EnvLine>, l: EnvLine, name: string)
    requires l in lines && l.name == name != ""
    ensures Assigned(lines, name)
  {
    var k :| 0 <= k < |lines| && lines[k] == l;
    assert lines[k].name == name;
  }

  lemma PaddedIsMissing(lines: seq<EnvLine>, key: (string, string))
    requires WellParsed(lines) && !Plain(key)
    ensures !Assigned(lines, key.0)
  {
    forall k | 0 <= k < |lines| ensures lines[k].name != key.0 {
      assert lines[k] in lines;
      ReadIsPlain(lines[k]);
    }
  }

  lemma AppendedIfPadded(keys: Dict<string>, lines: seq<EnvLine>, key: (string, string))
    requires WellParsed(lines) && PlainAssigned(keys, lines) && key in keys
    ensures Appending(MissingFrom(lines))(key) == PaddedEntry()(key)
    ensures NextMissing(MissingFrom(lines))(key) == PaddedBlock()(key)
  {
    var missing := MissingFrom(lines);
    if PlainValued(key) {
      assert !missing(key.0);
    } else if Valued(key) {
      PaddedIsMissing(lines, key);
    }
  }

  /** Once the plain keys are there, only padded ones are appended. */
  lemma OnlyPaddedAppended(keys: Dict<string>, lines: seq<EnvLine>)
    requires WellParsed(lines) && PlainAssigned(keys, lines)
    ensures FlatMap(Appending(MissingFrom(lines)), keys) == FlatMap(PaddedEntry(), keys)
    ensures FlatMap(NextMissing(MissingFrom(lines)), keys) == FlatMap(PaddedBlock(), keys)
  {
    var missing := MissingFrom(lines);
    forall key | key in keys
      ensures Appending(missing)(key) == PaddedEntry()(key)
      ensures NextMissing(missing)(key) == PaddedBlock()(key)
    {
      AppendedIfPadded(keys, lines, key);
    }
    FlatMapAgrees(Appending(missing), PaddedEntry(), keys);
    FlatMapAgrees(NextMissing(missing), PaddedBlock(), keys);
  }

  lemma PlainHeadIsThere(keys: Dict<string>, lines: seq<EnvLine>, key: (string, string))
    requires DistinctKeys(keys) && AllNamesValid(keys) && key in keys && PlainValued(key)
    ensures Assigned(FileOf(NextLines(keys, lines)), key.0)
  {
    EntryIsValid(keys, key);
    PlainHead(key);
    var head, next := Block(key)[0], NextLines(keys, lines);
    assert WrittenFor(keys, key, head);
    WrittenIsThere(keys, lines, key, head);
    var k :| 0 <= k < |next| && next[k] == head;
    FileHolds(next, k);
    assert next[..k + 1][k] == head;
    AssignedBy(FileOf(next), head, key.0);
  }

  /** The file a save leaves behind assigns every plain key with a value. */
  lemma SavedIsAssigned(keys: Dict<string>, lines: seq<EnvLine>)
    requires DistinctKeys(keys) && AllNamesValid(keys)
    ensures PlainAssigned(keys, FileOf(NextLines(keys, lines)))
  {
    forall key | key in keys && PlainValued(key) ensures Assigned(FileOf(NextLines(keys, lines)), key.0) {
      PlainHeadIsThere(keys, lines, key);
    }
  }

  // ------------------------------------------------------------ if they settle, nothing changes

  lemma ExtraAgain(keys: Dict<string>, key: (string, string))
    requires ExtraVanishes(keys) && key in keys && Valued(key)
    ensures FlatMap(Rendering(keys), Extra(key)) == []
  {
    forall l | l in Extra(key) ensures Rendering(keys)(l) == [] {
      assert Vanishes(keys, l);
    }
    FlatMapOfNothing(Rendering(keys), Extra(key));
  }

  lemma HeadAgain(keys: Dict<string>, key: (string, string), head: EnvLine)
    requires DistinctKeys(keys) && key in keys && Valued(key) && head.name == key.0 != ""
    ensures Rendering(keys)(head) == [Entry(key)]
  {
    EntryIsLookup(keys, key);
  }

  lemma HeadOnly<A, B>(f: A -> seq<B>, head: A, rest: seq<A>, b: B)
    requires f(head) == [b] && FlatMap(f, rest) == []
    ensures FlatMap(f, [head] + rest) == [b]
  {
    FlatMapConcat(f, [head], rest);
    FlatMapOne(f, head);
  }

  lemma PlainBlockIs(key: (string, string))
    requires ValidName(key.0) && PlainValued(key)
    ensures Block(key) != [] && Block(key)[0].name == key.0 && Block(key) == [Block(key)[0]] + Extra(key)
  {
    PlainHead(key);
  }

  /** What the lines of a written key become in the second save: the entry of a plain key again, and
      nothing else. */
  lemma BlockAgain(keys: Dict<string>, key: (string, string))
    requires DistinctKeys(keys) && AllNamesValid(keys) && ExtraVanishes(keys) && key in keys && Valued(key)
    ensures FlatMap(Rendering(keys), Block(key)) == if Plain(key) then [Entry(key)] else []
  {
    ExtraAgain(keys, key);
    if Plain(key) {
      EntryIsValid(keys, key);
      PlainBlockIs(key);
      var head := Block(key)[0];
      HeadAgain(keys, key, head);
      HeadOnly(Rendering(keys), head, Extra(key), Entry(key));
    }
  }

  /** What an entry becomes in the second save. */
  function Again(keys: Dict<string>): string -> seq<string> {
    (raw: string) => FlatMap(Rendering(keys), EntryLines(raw))
  }

  lemma EntryAgain(keys: Dict<string>, key: (string, string))
    requires DistinctKeys(keys) && AllNamesValid(keys) && ExtraVanishes(keys) && key in keys && Valued(key)
    ensures FlatMap(Again(keys), [Entry(key)]) == if Plain(key) then [Entry(key)] else []
  {
    BlockAgain(keys, key);
    FlatMapOne(Again(keys), Entry(key));
  }

  lemma UntouchedAgain(keys: Dict<string>, line: EnvLine)
    requires ReadsAsItself(line) && Untouched(keys, line)
    ensures FlatMap(Again(keys), [line.raw]) == [line.raw]
  {
    EntryOfLine(line);
    FlatMapOne(Rendering(keys), line);
    FlatMapOne(Again(keys), line.raw);
  }

  lemma RenderIs(keys: Dict<string>, line: EnvLine, key: (string, string))
    requires !Untouched(keys, line) && key == (line.name, Lookup(keys, line.name).value)
    ensures RenderLine(keys, line) == if Valued(key) then [Entry(key)] else []
  {
  }

  lemma LineAgain(keys: Dict<string>, line: EnvLine)
    requires DistinctKeys(keys) && AllNamesValid(keys) && ExtraVanishes(keys) && ReadsAsItself(line)
    ensures FlatMap(Again(keys), RenderLine(keys, line)) == RenderLine(keys, line)
  {
    if Untouched(keys, line) {
      UntouchedAgain(keys, line);
    } else {
      var key := (line.name, Lookup(keys, line.name).value);
      var rendered := RenderLine(keys, line);
      RenderIs(keys, line, key);
      LookupIsEntry(keys, line.name);
      ReadIsPlain(line);
      if Valued(key) {
        EntryAgain(keys, key);
      } else {
        assert rendered == [];
      }
    }
  }

  function AppendingPlain(missing: string -> bool): ((string, string)) -> seq<string> {
    (key: (string, string)) => if missing(key.0) && PlainValued(key) then [Entry(key)] else []
  }

  lemma KeyAgain(keys: Dict<string>, missing: string -> bool, key: (string, string))
    requires DistinctKeys(keys) && AllNamesValid(keys) && ExtraVanishes(keys) && key in keys
    ensures FlatMap(Again(keys), Appending(missing)(key)) == AppendingPlain(missing)(key)
  {
    if Valued(key) {
      EntryAgain(keys, key);
    }
  }

  lemma RenderedAgain(keys: Dict<string>, lines: seq<EnvLine>)
    requires DistinctKeys(keys) && AllNamesValid(keys) && ExtraVanishes(keys) && WellParsed(lines)
    ensures FlatMap(Again(keys), Rendered(keys, lines)) ==
      FlatMap(Rendering(keys), lines) + FlatMap(AppendingPlain(MissingFrom(lines)), keys)
  {
    var missing := MissingFrom(lines);
    forall line | line in lines ensures FlatMap(Again(keys), Rendering(keys)(line)) == Rendering(keys)(line) {
      LineAgain(keys, line);
    }
    forall key | key in keys ensures FlatMap(Again(keys), Appending(missing)(key)) == AppendingPlain(missing)(key) {
      KeyAgain(keys, missing, key);
    }
    FlatMapOfFlatMap(Again(keys), Rendering(keys), Rendering(keys), lines);
    FlatMapOfFlatMap(Again(keys), Appending(missing), AppendingPlain(missing), keys);
    FlatMapConcat(Again(keys), FlatMap(Rendering(keys), lines), FlatMap(Appending(missing), keys));
  }

  lemma PlainOrPadded(lines: seq<EnvLine>, key: (string, string))
    requires WellParsed(lines)
    ensures Appending(MissingFrom(lines))(key) == AppendingPlain(MissingFrom(lines))(key) + PaddedEntry()(key)
  {
    if !Plain(key) {
      PaddedIsMissing(lines, key);
    }
  }

  lemma PaddedOrLater(keys: Dict<string>, missing: string -> bool, i: nat, k: nat)
    requires PaddedLast(keys) && i <= k < |keys|
    ensures PaddedEntry()(keys[i]) == [] || AppendingPlain(missing)(keys[k]) == []
  {
  }

  lemma PlainFirst(keys: Dict<string>, lines: seq<EnvLine>)
    requires PaddedLast(keys) && WellParsed(lines)
    ensures FlatMap(Appending(MissingFrom(lines)), keys) ==
      FlatMap(AppendingPlain(MissingFrom(lines)), keys) + FlatMap(PaddedEntry(), keys)
  {
    var f, g, h := Appending(MissingFrom(lines)), AppendingPlain(MissingFrom(lines)), PaddedEntry();
    forall k | 0 <= k < |keys| ensures f(keys[k]) == g(keys[k]) + h(keys[k]) {
      PlainOrPadded(lines, keys[k]);
    }
    forall i, k | 0 <= i <= k < |keys| ensures h(keys[i]) == [] || g(keys[k]) == [] {
      PaddedOrLater(keys, MissingFrom(lines), i, k);
    }
    FlatMapSorted(f, g, h, keys);
  }

  /** Rendering the untrimmed lines again and appending the padded keys gives the first rendering. */
  lemma FirstRendering(keys: Dict<string>, lines: seq<EnvLine>)
    requires DistinctKeys(keys) && AllNamesValid(keys) && Settles(keys) && WellParsed(lines)
    ensures Rendered(keys, lines) ==
      FlatMap(Rendering(keys), NextLines(keys, lines)) + FlatMap(PaddedEntry(), keys)
  {
    var raws := Rendered(keys, lines);
    RenderedFills(keys, lines);
    forall raw | raw in raws ensures FlatMap(Rendering(keys), EntryLines(raw)) == Again(keys)(raw) {
    }
    FlatMapOfFlatMap(Rendering(keys), EntryLines, Again(keys), raws);
    RenderedAgain(keys, lines);
    PlainFirst(keys, lines);
    Regroup(FlatMap(Rendering(keys), lines), FlatMap(AppendingPlain(MissingFrom(lines)), keys),
      FlatMap(PaddedEntry(), keys));
  }

  lemma TrimRawBlank(raws: seq<string>)
    ensures TrimRaw(raws + [""]) == TrimRaw(raws)
  {
    assert (raws + [""])[..|raws|] == raws;
  }

  lemma {:induction false} RenderTrimmed(f: EnvLine -> seq<string>, lines: seq<EnvLine>)
    requires f(BLANK) == [""]
    ensures TrimRaw(FlatMap(f, Trim(lines))) == TrimRaw(FlatMap(f, lines))
  {
    if lines != [] && lines[|lines| - 1] == BLANK {
      var init := lines[..|lines| - 1];
      RenderTrimmed(f, init);
      TrimRawBlank(FlatMap(f, init));
    }
  }

  lemma RenderFile(f: EnvLine -> seq<string>, lines: seq<EnvLine>)
    requires f(BLANK) == [""]
    ensures TrimRaw(FlatMap(f, FileOf(lines))) == TrimRaw(FlatMap(f, lines))
  {
    RenderTrimmed(f, lines);
    if Trim(lines) == [] {
      FlatMapOne(f, BLANK);
      TrimRawBlank([]);
      assert [] + [""] == [""];
    }
  }

  /** Pieces that do not end in a blank line. */
  ghost predicate EndsFilled(lines: seq<EnvLine>) {
    lines == [] || lines[|lines| - 1] != BLANK
  }

  lemma {:induction false} PiecesEndFilled<A>(f: A -> seq<EnvLine>, s: seq<A>)
    requires forall a :: a in s ==> EndsFilled(f(a))
    ensures EndsFilled(FlatMap(f, s))
  {
    if s != [] {
      PiecesEndFilled(f, s[..|s| - 1]);
      assert s[|s| - 1] in s;
    }
  }

  lemma KeyEndsFilled(missing: string -> bool, key: (string, string))
    ensures EndsFilled(NextMissing(missing)(key))
  {
    if Valued(key) {
      BlockEnds(key);
    }
  }

  lemma AppendedEndFilled(keys: Dict<string>, missing: string -> bool)
    ensures EndsFilled(FlatMap(NextMissing(missing), keys))
  {
    forall key | key in keys ensures EndsFilled(NextMissing(missing)(key)) {
      KeyEndsFilled(missing, key);
    }
    PiecesEndFilled(NextMissing(missing), keys);
  }

  lemma FilledFile(lines: seq<EnvLine>)
    requires lines != [] && EndsFilled(lines)
    ensures FileOf(lines) == lines
  {
  }

  /** If padded keys are appended, no line is trimmed. */
  lemma PaddedEndsFile(keys: Dict<string>, lines: seq<EnvLine>)
    requires WellParsed(lines) && FlatMap(PaddedEntry(), keys) != []
    ensures FileOf(NextLines(keys, lines)) == NextLines(keys, lines)
  {
    var missing := MissingFrom(lines);
    if forall key :: key in keys ==> !PaddedValued(key) {
      FlatMapOfNothing(PaddedEntry(), keys);
    }
    var key :| key in keys && PaddedValued(key);
    PaddedIsMissing(lines, key);
    BlockEnds(key);
    var l := Block(key)[0];
    assert l in NextMissing(missing)(key);
    FlatMapMember(NextMissing(missing), keys, l);
    AppendedEndFilled(keys, missing);
    var more := FlatMap(NextMissing(missing), keys);
    assert l in more;
    FilledFile(FlatMap(Nexting(keys), lines) + more);
  }

  lemma BlankRenders(keys: Dict<string>)
    ensures Rendering(keys)(BLANK) == [""]
  {
    assert BLANK.name == "" && BLANK.raw == "";
  }

  lemma SameTrimmed(keys: Dict<string>, lines: seq<EnvLine>)
    requires DistinctKeys(keys) && AllNamesValid(keys) && Settles(keys) && WellParsed(lines)
    requires WellParsed(FileOf(NextLines(keys, lines)))
    ensures TrimRaw(Rendered(keys, FileOf(NextLines(keys, lines)))) == TrimRaw(Rendered(keys, lines))
  {
    var next := NextLines(keys, lines);
    var padded := FlatMap(PaddedEntry(), keys);
    FirstRendering(keys, lines);
    SavedIsAssigned(keys, lines);
    OnlyPaddedAppended(keys, FileOf(next));
    if padded == [] {
      BlankRenders(keys);
      RenderFile(Rendering(keys), next);
      assert FlatMap(Rendering(keys), next) + padded == FlatMap(Rendering(keys), next);
      assert FlatMap(Rendering(keys), FileOf(next)) + padded == FlatMap(Rendering(keys), FileOf(next));
    } else {
      PaddedEndsFile(keys, lines);
    }
  }

  lemma SettledIsIdle(text: string, keys: Dict<string>)
    requires DistinctKeys(keys) && AllNamesValid(keys) && Settles(keys)
    ensures SecondSaveIdle(text, keys)
  {
    var lines, file := LinesOf(text), LinesOf(Saved(text, keys));
    TextIsWellParsed(text);
    TextIsWellParsed(Saved(text, keys));
    SavedLines(text, keys);
    SameTrimmed(keys, lines);
    RenderedIsEnded(keys, lines);
    RenderedIsEnded(keys, file);
    BodyTrims(Rendered(keys, file), Rendered(keys, lines));
  }

  // ------------------------------------------------------------ if nothing changes, they settle

  lemma NothingLeft(keys: Dict<string>, line: EnvLine)
    requires NextLine(keys, line) == []
    ensures Vanishes(keys, line)
  {
    var key := (line.name, Lookup(keys, line.name).value);
    if Valued(key) {
      BlockEnds(key);
    }
  }

  lemma {:induction false} AllVanish(keys: Dict<string>, lines: seq<EnvLine>)
    requires FlatMap(Nexting(keys), lines) == []
    ensures forall l :: l in lines ==> Vanishes(keys, l)
  {
    if lines != [] {
      var n := |lines| - 1;
      AllVanish(keys, lines[..n]);
      NothingLeft(keys, lines[n]);
      assert lines == lines[..n] + [lines[n]];
    }
  }

  /** The lines of a plain key after one more save: the key's lines again, and what the extra ones
      become. */
  lemma PlainBlockNext(keys: Dict<string>, key: (string, string))
    requires DistinctKeys(keys) && AllNamesValid(keys) && key in keys && PlainValued(key)
    ensures FlatMap(Nexting(keys), Block(key)) == Block(key) + FlatMap(Nexting(keys), Extra(key))
  {
    EntryIsValid(keys, key);
    EntryIsLookup(keys, key);
    PlainBlockIs(key);
    var head := Block(key)[0];
    assert Nexting(keys)(head) == Block(key);
    FlatMapConcat(Nexting(keys), [head], Extra(key));
    FlatMapOne(Nexting(keys), head);
  }

  function NextOfBlock(keys: Dict<string>): ((string, string)) -> seq<EnvLine> {
    (key: (string, string)) => FlatMap(Nexting(keys), Block(key))
  }

  function PlainBlock(): ((string, string)) -> seq<EnvLine> {
    (key: (string, string)) => if PlainValued(key) then Block(key) else []
  }

  function PlainKeys(keys: Dict<string>): Dict<string> {
    Filter(keys, PlainValued)
  }

  /** A file that clears every plain key, and has a comment at its end. */
  function ClearedFile(keys: Dict<string>): string {
    TextOf(Map(Clearing(), PlainKeys(keys)) + ["#"])
  }

  const COMMENT := EnvLine("#", "", "")

  lemma PlainKeyIs(keys: Dict<string>, key: (string, string))
    requires AllNamesValid(keys) && key in PlainKeys(keys)
    ensures Clearable(key) && ClearingLine()(key).name == key.0 != ""
  {
    EntryIsValid(keys, key);
    ClearedParses(key.0);
  }

  lemma ClearedLines(keys: Dict<string>)
    requires AllNamesValid(keys)
    ensures LinesOf(ClearedFile(keys)) == Map(ClearingLine(), PlainKeys(keys)) + [COMMENT]
  {
    var plain := PlainKeys(keys);
    var raws := Map(Clearing(), plain);
    forall key | key in plain ensures Clearable(key) {
      PlainKeyIs(keys, key);
    }
    ClearingLines(plain);
    CommentParses("#");
    TextOfSplits(raws + ["#"]);
    MapConcat(ParseLine, raws, ["#"]);
    ParsedOne("#");
  }

  lemma ClearedKept(keys: Dict<string>)
    requires DistinctKeys(keys) && AllNamesValid(keys)
    ensures FlatMap(Nexting(keys), Map(ClearingLine(), PlainKeys(keys))) == FlatMap(Block, PlainKeys(keys))
  {
    forall key | key in PlainKeys(keys) ensures Nexting(keys)(ClearingLine()(key)) == Block(key) {
      PlainKeyIs(keys, key);
      EntryIsLookup(keys, key);
    }
    FlatMapOfMap(Nexting(keys), ClearingLine(), Block, PlainKeys(keys));
  }

  lemma ClearedIsAssigned(keys: Dict<string>)
    requires AllNamesValid(keys)
    ensures PlainAssigned(keys, LinesOf(ClearedFile(keys)))
  {
    var plain, lines := PlainKeys(keys), LinesOf(ClearedFile(keys));
    ClearedLines(keys);
    forall key | key in keys && PlainValued(key) ensures Assigned(lines, key.0) {
      assert key in plain;
      var k :| 0 <= k < |plain| && plain[k] == key;
      PlainKeyIs(keys, key);
      assert lines[k] == Map(ClearingLine(), plain)[k] == ClearingLine()(key);
    }
  }

  /** Saving over that file writes the plain keys, the comment, and the padded keys. */
  lemma ClearedNext(keys: Dict<string>)
    requires DistinctKeys(keys) && AllNamesValid(keys)
    ensures NextLines(keys, LinesOf(ClearedFile(keys))) ==
      FlatMap(Block, PlainKeys(keys)) + [COMMENT] + FlatMap(PaddedBlock(), keys)
  {
    ClearedLines(keys);
    ClearedKept(keys);
    ClearedIsAssigned(keys);
    TextIsWellParsed(ClearedFile(keys));
    OnlyPaddedAppended(keys, LinesOf(ClearedFile(keys)));
    FlatMapConcat(Nexting(keys), Map(ClearingLine(), PlainKeys(keys)), [COMMENT]);
    FlatMapOne(Nexting(keys), COMMENT);
  }

  lemma PaddedEndFilled(keys: Dict<string>)
    ensures EndsFilled(FlatMap(PaddedBlock(), keys))
  {
    forall key | key in keys ensures EndsFilled(PaddedBlock()(key)) {
      if PaddedValued(key) {
        BlockEnds(key);
      }
    }
    PiecesEndFilled(PaddedBlock(), keys);
  }

  /** The lines after the second save. */
  lemma SecondNext(text: string, keys: Dict<string>)
    requires DistinctKeys(keys) && AllNamesValid(keys)
    ensures LinesOf(Saved(Saved(text, keys), keys)) ==
      FileOf(FlatMap(Nexting(keys), LinesOf(Saved(text, keys))) + FlatMap(PaddedBlock(), keys))
  {
    var file := LinesOf(Saved(text, keys));
    SavedLines(text, keys);
    SavedLines(Saved(text, keys), keys);
    TextIsWellParsed(Saved(text, keys));
    SavedIsAssigned(keys, LinesOf(text));
    OnlyPaddedAppended(keys, file);
  }

  lemma FilledAround(a: seq<EnvLine>, b: seq<EnvLine>)
    requires EndsFilled(b)
    ensures FileOf(a + [COMMENT] + b) == a + [COMMENT] + b
  {
    FilledFile(a + [COMMENT] + b);
  }

  /** If saving over the cleared file twice is saving once, the extra lines become nothing. */
  lemma ClearedAgain(keys: Dict<string>)
    requires DistinctKeys(keys) && AllNamesValid(keys) && SecondSaveIdle(ClearedFile(keys), keys)
    ensures |FlatMap(Nexting(keys), FlatMap(Block, PlainKeys(keys)))| + |FlatMap(Nexting(keys), FlatMap(PaddedBlock(), keys))|
      == |FlatMap(Block, PlainKeys(keys))|
  {
    var text := ClearedFile(keys);
    var plain, padded := FlatMap(Block, PlainKeys(keys)), FlatMap(PaddedBlock(), keys);
    ClearedNext(keys);
    SavedLines(text, keys);
    PaddedEndFilled(keys);
    FilledAround(plain, padded);
    SecondNext(text, keys);
    NextAround(keys, plain, padded);
    var p, q := FlatMap(Nexting(keys), plain), FlatMap(Nexting(keys), padded);
    assert padded == [] ==> q == [];
    FilledAround(p, q + padded);
  }

  lemma NextAround(keys: Dict<string>, a: seq<EnvLine>, b: seq<EnvLine>)
    ensures FlatMap(Nexting(keys), a + [COMMENT] + b) ==
      FlatMap(Nexting(keys), a) + [COMMENT] + FlatMap(Nexting(keys), b)
  {
    FlatMapConcat(Nexting(keys), a + [COMMENT], b);
    FlatMapConcat(Nexting(keys), a, [COMMENT]);
    FlatMapOne(Nexting(keys), COMMENT);
  }

  /** The plain keys fill at least as many lines again, and not more only if their extra lines
      vanish. */
  lemma PlainExtraVanishes(keys: Dict<string>)
    requires DistinctKeys(keys) && AllNamesValid(keys)
    ensures |FlatMap(Nexting(keys), FlatMap(Block, PlainKeys(keys)))| >= |FlatMap(Block, PlainKeys(keys))|
    ensures |FlatMap(Nexting(keys), FlatMap(Block, PlainKeys(keys)))| == |FlatMap(Block, PlainKeys(keys))| ==>
      forall key, l :: key in keys && PlainValued(key) && l in Extra(key) ==> Vanishes(keys, l)
  {
    var plain := PlainKeys(keys);
    forall key | key in plain ensures |NextOfBlock(keys)(key)| >= |Block(key)| {
      PlainBlockNext(keys, key);
    }
    FlatMapOfFlatMap(Nexting(keys), Block, NextOfBlock(keys), plain);
    FlatMapLonger(NextOfBlock(keys), Block, plain);
    if |FlatMap(NextOfBlock(keys), plain)| == |FlatMap(Block, plain)| {
      forall key, l | key in keys && PlainValued(key) && l in Extra(key) ensures Vanishes(keys, l) {
        assert key in plain && |NextOfBlock(keys)(key)| == |Block(key)|;
        PlainBlockNext(keys, key);
        AllVanish(keys, Extra(key));
      }
    }
  }

  lemma PaddedExtraVanishes(keys: Dict<string>)
    requires FlatMap(Nexting(keys), FlatMap(PaddedBlock(), keys)) == []
    ensures forall key, l :: key in keys && PaddedValued(key) && l in Extra(key) ==> Vanishes(keys, l)
  {
    var padded := FlatMap(PaddedBlock(), keys);
    AllVanish(keys, padded);
    forall key, l | key in keys && PaddedValued(key) && l in Extra(key) ensures Vanishes(keys, l) {
      assert l in PaddedBlock()(key);
      FlatMapMember(PaddedBlock(), keys, l);
    }
  }

  lemma IdleExtraVanishes(keys: Dict<string>)
    requires DistinctKeys(keys) && AllNamesValid(keys) && SecondSaveIdle(ClearedFile(keys), keys)
    ensures ExtraVanishes(keys)
  {
    ClearedAgain(keys);
    PlainExtraVanishes(keys);
    PaddedExtraVanishes(keys);
  }

  // ------------------------------------------------------------ the order of the keys

  function ValuedBlock(): ((string, string)) -> seq<EnvLine> {
    (key: (string, string)) => if Valued(key) then Block(key) else []
  }

  lemma EmptyFileNext(keys: Dict<string>)
    ensures NextLines(keys, LinesOf("")) == FlatMap(ValuedBlock(), keys)
  {
    var missing := MissingFrom([]);
    assert LinesOf("") == [];
    forall key | key in keys ensures NextMissing(missing)(key) == ValuedBlock()(key) {
    }
    FlatMapAgrees(NextMissing(missing), ValuedBlock(), keys);
  }

  lemma ValuedEndFilled(keys: Dict<string>)
    ensures EndsFilled(FlatMap(ValuedBlock(), keys))
  {
    forall key | key in keys ensures EndsFilled(ValuedBlock()(key)) {
      if Valued(key) {
        BlockEnds(key);
      }
    }
    PiecesEndFilled(ValuedBlock(), keys);
  }

  lemma PlainEndFilled(keys: Dict<string>)
    ensures EndsFilled(FlatMap(PlainBlock(), keys))
  {
    forall key | key in keys ensures EndsFilled(PlainBlock()(key)) {
      if PlainValued(key) {
        BlockEnds(key);
      }
    }
    PiecesEndFilled(PlainBlock(), keys);
  }

  lemma KeyBlockNext(keys: Dict<string>, key: (string, string))
    requires DistinctKeys(keys) && AllNamesValid(keys) && ExtraVanishes(keys) && key in keys
    ensures FlatMap(Nexting(keys), ValuedBlock()(key)) == PlainBlock()(key)
  {
    if Valued(key) {
      forall l | l in Extra(key) ensures Nexting(keys)(l) == [] {
        assert Vanishes(keys, l);
      }
      FlatMapOfNothing(Nexting(keys), Extra(key));
      if Plain(key) {
        PlainBlockNext(keys, key);
      }
    }
  }

  /** If saving into an empty file twice is saving once, the second save writes the plain keys
      first. */
  lemma EmptyFileAgain(keys: Dict<string>)
    requires DistinctKeys(keys) && AllNamesValid(keys) && ExtraVanishes(keys) && SecondSaveIdle("", keys)
    requires FlatMap(ValuedBlock(), keys) != []
    ensures FlatMap(ValuedBlock(), keys) == FileOf(FlatMap(PlainBlock(), keys) + FlatMap(PaddedBlock(), keys))
  {
    var all := FlatMap(ValuedBlock(), keys);
    EmptyFileNext(keys);
    SavedLines("", keys);
    ValuedEndFilled(keys);
    FilledFile(all);
    SecondNext("", keys);
    forall key | key in keys ensures FlatMap(Nexting(keys), ValuedBlock()(key)) == PlainBlock()(key) {
      KeyBlockNext(keys, key);
    }
    FlatMapOfFlatMap(Nexting(keys), ValuedBlock(), PlainBlock(), keys);
  }

  /** The lines of some keys are those of the plain ones and then those of the padded ones. */
  ghost predicate Sorted(some: Dict<string>) {
    FlatMap(ValuedBlock(), some) == FlatMap(PlainBlock(), some) + FlatMap(PaddedBlock(), some)
  }

  lemma PlainThenPadded(keys: Dict<string>)
    requires DistinctKeys(keys) && AllNamesValid(keys) && ExtraVanishes(keys) && SecondSaveIdle("", keys)
    ensures Sorted(keys)
  {
    var all, plain, padded := FlatMap(ValuedBlock(), keys), FlatMap(PlainBlock(), keys), FlatMap(PaddedBlock(), keys);
    if all == [] {
      NoneOfNone(keys);
    } else {
      EmptyFileAgain(keys);
      PlainEndFilled(keys);
      PaddedEndFilled(keys);
      if plain + padded == [] {
        NoneOfNone(keys);
      } else {
        FilledFile(plain + padded);
      }
    }
  }

  /** There is no line exactly when no key has a value. */
  lemma {:induction false} NoneOfNone(keys: Dict<string>)
    ensures FlatMap(ValuedBlock(), keys) == [] <==> FlatMap(PlainBlock(), keys) + FlatMap(PaddedBlock(), keys) == []
  {
    if keys != [] {
      NoneOfNone(keys[..|keys| - 1]);
    }
  }

  /** All elements from `k` on vanish. */
  ghost predicate VanishFrom(keys: Dict<string>, lines: seq<EnvLine>, k: nat) {
    forall i :: k <= i < |lines| ==> Vanishes(keys, lines[i])
  }

  lemma LaterVanish(keys: Dict<string>, b: seq<EnvLine>, block: seq<EnvLine>, more: seq<EnvLine>, n: nat)
    requires VanishFrom(keys, block, 1) && VanishFrom(keys, more, 0)
    requires |b| < n < |b| + |block| + |more|
    ensures Vanishes(keys, (b + block + more)[n])
  {
    if n < |b| + |block| {
      assert (b + block + more)[n] == block[n - |b|];
    } else {
      assert (b + block + more)[n] == more[n - |b| - |block|];
    }
  }

  /** A head that stays cannot have as many lines after it once more lines that vanish follow. */
  lemma HeadsDiffer(keys: Dict<string>, a: seq<EnvLine>, b: seq<EnvLine>, block: seq<EnvLine>, more: seq<EnvLine>)
    requires block != [] && !Vanishes(keys, block[0]) && VanishFrom(keys, block, 1) && VanishFrom(keys, more, 0)
    requires a + block == b + block + more
    ensures more == []
  {
    assert (a + block)[|a|] == block[0];
    if more != [] {
      assert |a| == |b| + |more|;
      LaterVanish(keys, b, block, more, |a|);
    }
  }

  lemma DropTails<T>(all: seq<T>, a: seq<T>, b: seq<T>, tail: seq<T>)
    requires all + tail == (a + []) + (b + tail)
    ensures all == a + b
  {
    assert all == (all + tail)[..|all|];
    assert a + b == ((a + []) + (b + tail))[..|a + b|];
  }

  lemma PlainStays(keys: Dict<string>, key: (string, string))
    requires DistinctKeys(keys) && AllNamesValid(keys) && ExtraVanishes(keys) && key in keys && PlainValued(key)
    ensures Block(key) != [] && !Vanishes(keys, Block(key)[0]) && VanishFrom(keys, Block(key), 1)
  {
    EntryIsValid(keys, key);
    EntryIsLookup(keys, key);
    PlainHead(key);
    forall i | 1 <= i < |Block(key)| ensures Vanishes(keys, Block(key)[i]) {
      assert Block(key)[i] == Extra(key)[i - 1];
    }
  }

  lemma PaddedVanish(keys: Dict<string>, some: Dict<string>)
    requires ExtraVanishes(keys) && forall key :: key in some ==> key in keys
    ensures VanishFrom(keys, FlatMap(PaddedBlock(), some), 0)
  {
    var padded := FlatMap(PaddedBlock(), some);
    forall i | 0 <= i < |padded| ensures Vanishes(keys, padded[i]) {
      FlatMapMember(PaddedBlock(), some, padded[i]);
      var key :| key in some && padded[i] in PaddedBlock()(key);
      assert padded[i] in Extra(key);
    }
  }

  lemma NoPaddedIn(some: Dict<string>)
    requires FlatMap(PaddedBlock(), some) == []
    ensures forall i :: 0 <= i < |some| ==> !PaddedValued(some[i])
  {
    forall i | 0 <= i < |some| ensures !PaddedValued(some[i]) {
      if PaddedValued(some[i]) {
        BlockEnds(some[i]);
        var l := Block(some[i])[0];
        assert l in PaddedBlock()(some[i]);
        FlatMapMember(PaddedBlock(), some, l);
      }
    }
  }

  lemma PlainAtEnd(keys: Dict<string>, init: Dict<string>, last: (string, string))
    requires DistinctKeys(keys) && AllNamesValid(keys) && ExtraVanishes(keys)
    requires last in keys && forall key :: key in init ==> key in keys
    requires PlainValued(last) && Sorted(init + [last])
    ensures forall i :: 0 <= i < |init| ==> !PaddedValued(init[i])
  {
    var all, plain, padded := FlatMap(ValuedBlock(), init), FlatMap(PlainBlock(), init), FlatMap(PaddedBlock(), init);
    OneMoreOf(init, last);
    assert all + Block(last) == plain + Block(last) + padded;
    PlainStays(keys, last);
    PaddedVanish(keys, init);
    HeadsDiffer(keys, all, plain, Block(last), padded);
    NoPaddedIn(init);
  }

  lemma OneMoreOf(init: Dict<string>, last: (string, string))
    ensures FlatMap(ValuedBlock(), init + [last]) == FlatMap(ValuedBlock(), init) + ValuedBlock()(last)
    ensures FlatMap(PlainBlock(), init + [last]) == FlatMap(PlainBlock(), init) + PlainBlock()(last)
    ensures FlatMap(PaddedBlock(), init + [last]) == FlatMap(PaddedBlock(), init) + PaddedBlock()(last)
  {
    assert (init + [last])[..|init|] == init;
  }

  lemma OtherAtEnd(init: Dict<string>, last: (string, string))
    requires !PlainValued(last) && Sorted(init + [last])
    ensures Sorted(init)
  {
    var all, plain, padded := FlatMap(ValuedBlock(), init), FlatMap(PlainBlock(), init), FlatMap(PaddedBlock(), init);
    OneMoreOf(init, last);
    var block := ValuedBlock()(last);
    assert PlainBlock()(last) == [] && PaddedBlock()(last) == block;
    DropTails(all, plain, padded, block);
  }

  /** Plain keys are written before padded ones only if they come before them. */
  lemma {:induction false} OrderedByLines(keys: Dict<string>, some: Dict<string>)
    requires DistinctKeys(keys) && AllNamesValid(keys) && ExtraVanishes(keys)
    requires forall key :: key in some ==> key in keys
    requires Sorted(some)
    ensures PaddedLast(some)
  {
    if some != [] {
      var init, last := some[..|some| - 1], some[|some| - 1];
      assert some == init + [last];
      if PlainValued(last) {
        PlainAtEnd(keys, init, last);
      } else {
        OtherAtEnd(init, last);
        OrderedByLines(keys, init);
      }
    }
  }

  lemma IdleIsOrdered(keys: Dict<string>)
    requires DistinctKeys(keys) && AllNamesValid(keys) && ExtraVanishes(keys) && SecondSaveIdle("", keys)
    ensures PaddedLast(keys)
  {
    PlainThenPadded(keys);
    OrderedByLines(keys, keys);
  }

  /** Saving the same keys again changes nothing, whatever the file, exactly when every line that is
      written besides the first of a plain name has a name that is saved without a value, and padded
      keys come last. */
  lemma SecondSaveChangesNothing(keys: Dict<string>)
    requires DistinctKeys(keys) && AllNamesValid(keys)
    ensures (forall text :: SecondSaveIdle(text, keys)) <==> Settles(keys)
  {
    if Settles(keys) {
      forall text ensures SecondSaveIdle(text, keys) {
        SettledIsIdle(text, keys);
      }
    }
    if forall text :: SecondSaveIdle(text, keys) {
      assert SecondSaveIdle(ClearedFile(keys), keys) && SecondSaveIdle("", keys);
      IdleExtraVanishes(keys);
      IdleIsOrdered(keys);
    }
  }

  ghost predicate AllHaveValues(keys: Dict<string>) {
    forall key :: key in keys ==> Valued(key)
  }

  /** When no key is removed, those are the keys that read back. */
  lemma StorableSettles(keys: Dict<string>)
    requires DistinctKeys(keys) && AllNamesValid(keys)
    ensures Storable(keys) ==> Settles(keys)
    ensures AllHaveValues(keys) && Settles(keys) ==> Storable(keys)
  {
    if Storable(keys) {
      forall key | key in keys && Valued(key) ensures Extra(key) == [] {
        EntryIsValid(keys, key);
        StorableBlock(key);
      }
      forall i | 0 <= i < |keys| && Valued(keys[i]) ensures Plain(keys[i]) {
        assert keys[i] in keys;
      }
    }
    if AllHaveValues(keys) && Settles(keys) {
      forall key | key in keys ensures StorableKey(key) {
        NothingVanishes(keys, key);
        BlockEnds(key);
        if !Unbroken(Strip(key.1)) {
          BrokenBlock(key);
        }
      }
    }
  }

  lemma NothingVanishes(keys: Dict<string>, key: (string, string))
    requires AllHaveValues(keys) && ExtraVanishes(keys) && key in keys
    ensures Extra(key) == []
  {
    if Extra(key) != [] {
      var l := Extra(key)[0];
      assert Vanishes(keys, l);
      LookupIsEntry(keys, l.name);
    }
  }

  // ------------------------------------------------------------ padded names

  /** A name with space around it is accepted, but its line is never found again: every save
      appends one more. */
  lemma PaddedNameIsAppendedEveryTime(text: string, name: string, value: string)
    requires ValidName(name) && Strip(name) != name && Unbroken(name)
    requires Strip(value) != "" && Unbroken(Strip(value))
    ensures SplitLines(Saved(text, [(name, value)])) == SplitLines(text) + [Assignment(name, Strip(value))]
  {
    var keys, raws := [(name, value)], SplitLines(text);
    var line := Assignment(name, Strip(value));
    PaddedIsAppended(text, keys, name, value);
    RawsOfParsed(raws);
    AssignmentUnbroken(name, Strip(value));
    AddedLines(raws, line);
  }

  function RawOf(line: EnvLine): string {
    line.raw
  }

  lemma {:induction false} RawsOfParsed(raws: seq<string>)
    ensures Map(RawOf, Parsed(raws)) == raws
  {
    if raws != [] {
      RawsOfParsed(raws[1..]);
      assert raws == [raws[0]] + raws[1..];
    }
  }

  lemma AddedLines(raws: seq<string>, line: string)
    requires (forall raw :: raw in raws ==> Unbroken(raw)) && Unbroken(line) && line != ""
    ensures SplitLines(Body(raws + [line])) == raws + [line]
  {
    var all := raws + [line];
    forall k | 0 <= k < |all| ensures Ended(all[k]) {
      assert k < |raws| ==> all[k] in raws;
    }
    BodyLines(all);
    assert TrimRaw(all) == all;
    forall raw | raw in all ensures Pieces(raw) == [Same(raw)] {
      if raw != line {
        assert raw in raws && Unbroken(raw);
      }
      OneLine(raw);
    }
    FlatMapOfOnes(Pieces, Same, all);
    assert Map(Same, all) == all;
  }

  lemma PaddedIsAppended(text: string, keys: Dict<string>, name: string, value: string)
    requires keys == [(name, value)] && Strip(name) != name && Strip(value) != ""
    ensures Rendered(keys, LinesOf(text)) == Map(RawOf, LinesOf(text)) + [Assignment(name, Strip(value))]
  {
    var lines := LinesOf(text);
    TextIsWellParsed(text);
    forall line | line in lines ensures Rendering(keys)(line) == [RawOf(line)] {
      ReadIsPlain(line);
      OtherLine(keys, name, value, line);
    }
    FlatMapOfOnes(Rendering(keys), RawOf, lines);
    PaddedIsMissing(lines, (name, value));
    FlatMapOne(Appending(MissingFrom(lines)), (name, value));
  }

  lemma OtherLine(keys: Dict<string>, name: string, value: string, line: EnvLine)
    requires keys == [(name, value)] && line.name != name
    ensures RenderLine(keys, line) == [line.raw]
  {
    assert keys[1..] == [];
    assert Lookup(keys, line.name) == None;
  }

  lemma {:induction false} StripLeftOf(a: string, b: string)
    requires StripLeft(a, IsSpace) != ""
    ensures StripLeft(a + b, IsSpace) == StripLeft(a, IsSpace) + b
  {
    if IsSpace(a[0]) {
      assert (a + b)[1..] == a[1..] + b;
      StripLeftOf(a[1..], b);
    }
  }

  lemma {:induction false} StrippedAreSpace(s: string, k: nat)
    requires |StripRight(s, IsSpace)| <= k < |s|
    ensures IsSpace(s[k])
  {
    if k < |s| - 1 {
      StrippedAreSpace(s[..|s| - 1], k);
    }
  }

  /** A padded name without the space before it. */
  lemma LeftIsClean(name: string)
    requires ValidName(name)
    ensures
      var left := StripLeft(name, IsSpace);
      && left != "" && left[0] != '#' && !IsSpace(left[0]) && Strip(left) == Strip(name)
      && forall k :: 0 <= k < |left| ==> left[k] != '='
  {
    var left := StripLeft(name, IsSpace);
    StripRightIsPrefix(left, IsSpace);
    assert Strip(name) == left[..|Strip(name)|];
    forall k | 0 <= k < |left| ensures left[k] != '=' {
      if k < |Strip(name)| {
        assert left[k] == Strip(name)[k];
      } else {
        StrippedAreSpace(left, k);
      }
    }
    assert left[0] == Strip(name)[0];
  }

  lemma PaddedParses(name: string, value: string)
    requires ValidName(name) && Strip(value) == value != ""
    ensures ParseLine(Assignment(name, value)).name == Strip(name)
    ensures ParseLine(Assignment(name, value)).value == value
  {
    var raw, left := Assignment(name, value), StripLeft(name, IsSpace);
    var s := Assignment(left, value);
    LeftIsClean(name);
    StripLeftOf(name, "=" + value);
    assert raw == name + ("=" + value) && s == left + ("=" + value);
    AssignmentShape(left, value);
    assert StripRight(s, IsSpace) == s;
    assert Strip(raw) == s;
    EqualsAtIs(s, |left|);
    assert ParseLine(raw) == ParseStripped(raw, s, |left|);
  }

  /** Such a line is read as one of the plain name: saving `" FOO"` changes what `FOO` stores. */
  lemma PaddedNameStoresUnderPlain(text: string, name: string, value: string)
    requires ValidName(name) && Strip(name) != name && Unbroken(name)
    requires Strip(value) != "" && Unbroken(Strip(value))
    ensures Stored(Saved(text, [(name, value)]), Strip(name)) == Some(Strip(value))
    ensures Stored(Saved(text, [(name, value)]), name) == None
  {
    var raws, line := SplitLines(text), Assignment(name, Strip(value));
    PaddedNameIsAppendedEveryTime(text, name, value);
    StripTwice(value);
    PaddedParses(name, Strip(value));
    MapAppend(ParseLine, raws, line);
    StoredInOneMore(Parsed(raws), ParseLine(line), Strip(name));
    if Stored(Saved(text, [(name, value)]), name).Some? {
      StoredIsPlain(Saved(text, [(name, value)]), name);
    }
  }
}
