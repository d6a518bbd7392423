/** What saving keys does to the lines of the key file: which survive, and where. */
module KeyFileSurvival {
  import opened Sequences
  import opened Options
  import opened OrderedDicts
  import opened Text
  import opened KeyFile
  import opened KeyFileText
  import opened KeyFileLines
  import opened KeyFileLaws

  function LeftAlone(keys: Dict<string>): EnvLine -> bool {
    (line: EnvLine) => Untouched(keys, line)
  }

  /** Dropping lines and trimming blank ones keeps the order. */
  lemma {:induction false} SubsequenceTrims(s: seq<EnvLine>, t: seq<EnvLine>)
    requires Subsequence(s, t)
    ensures Subsequence(Trim(s), Trim(t))
    decreases |t|
  {
    if t != [] && t[|t| - 1] == BLANK {
      var n := |t| - 1;
      if Subsequence(s, t[..n]) {
        SubsequenceTrims(s, t[..n]);
      } else {
        SubsequenceTrims(s[..|s| - 1], t[..n]);
      }
    } else {
      SubsequencePrefix(s, t, |Trim(s)|);
    }
  }

  lemma SubsequenceOfFile(s: seq<EnvLine>, lines: seq<EnvLine>)
    requires Subsequence(s, lines)
    ensures Subsequence(Trim(s), FileOf(lines))
  {
    SubsequenceTrims(s, lines);
  }

  /** A line that is not removed: its key, if it has one, has a value. */
  function Remains(keys: Dict<string>): EnvLine -> bool {
    (line: EnvLine) => NextLine(keys, line) != []
  }

  /** The line that takes the place of one that remains: itself, or the first line of its key. */
  function Heading(keys: Dict<string>): EnvLine -> EnvLine {
    (line: EnvLine) => var next := NextLine(keys, line); if next == [] then line else next[0]
  }

  function FirstOf(lines: seq<EnvLine>): seq<EnvLine> {
    if lines == [] then [] else [lines[0]]
  }

  function Head(keys: Dict<string>): EnvLine -> seq<EnvLine> {
    (line: EnvLine) => FirstOf(NextLine(keys, line))
  }

  lemma FirstIsPart(lines: seq<EnvLine>)
    ensures Subsequence(FirstOf(lines), lines)
  {
    if lines != [] {
      var first := [lines[0]];
      assert first[..0] == [];
      SubsequenceConcat(first, first, [], lines[1..]);
      assert first + [] == first && first + lines[1..] == lines;
    }
  }

  lemma SubsequenceOfNext(s: seq<EnvLine>, keys: Dict<string>, lines: seq<EnvLine>)
    requires Subsequence(s, FlatMap(Nexting(keys), lines))
    ensures Subsequence(s, NextLines(keys, lines))
  {
    SubsequenceConcat(s, FlatMap(Nexting(keys), lines), [], FlatMap(NextMissing(MissingFrom(lines)), keys));
    assert s + [] == s;
  }

  /** What an existing line becomes: itself, nothing exactly when its key is emptied, or a line of
      the same name. */
  lemma HeadingIs(keys: Dict<string>, line: EnvLine)
    requires AllNamesValid(keys) && ReadsAsItself(line)
    ensures Untouched(keys, line) ==> Remains(keys)(line) && Heading(keys)(line) == line
    ensures !Untouched(keys, line) ==> (Remains(keys)(line) <==> Strip(Lookup(keys, line.name).value) != "")
    ensures Heading(keys)(line).name == line.name
  {
    if !Untouched(keys, line) {
      LookupIsEntry(keys, line.name);
      var key := (line.name, Lookup(keys, line.name).value);
      if Valued(key) {
        EntryIsValid(keys, key);
        ReadIsPlain(line);
        PlainHead(key);
      }
    }
  }

  /** Every save keeps the existing lines in order: the lines that are not removed, each as itself
      or as the first line of its key, are lines of the new file in the same order; only blank lines
      at the end are trimmed. */
  lemma LinesStayInOrder(text: string, keys: Dict<string>)
    requires AllNamesValid(keys)
    ensures
      var kept := Filter(LinesOf(text), Remains(keys));
      && Subsequence(Trim(Map(Heading(keys), kept)), LinesOf(Saved(text, keys)))
      && forall k :: 0 <= k < |kept| ==> Heading(keys)(kept[k]).name == kept[k].name
  {
    var lines := LinesOf(text);
    var kept := Filter(lines, Remains(keys));
    MapOfFilter(Heading(keys), Head(keys), lines, Remains(keys));
    forall line | line in lines ensures Subsequence(Head(keys)(line), Nexting(keys)(line)) {
      FirstIsPart(NextLine(keys, line));
    }
    SubsequenceOfFlatMap(Head(keys), Nexting(keys), lines);
    SubsequenceOfNext(Map(Heading(keys), kept), keys, lines);
    SubsequenceOfFile(Map(Heading(keys), kept), NextLines(keys, lines));
    SavedLines(text, keys);
    TextIsWellParsed(text);
    forall k | 0 <= k < |kept| ensures Heading(keys)(kept[k]).name == kept[k].name {
      assert kept[k] in kept;
      HeadingIs(keys, kept[k]);
    }
  }

  function IfLeftAlone(keys: Dict<string>): EnvLine -> seq<EnvLine> {
    (line: EnvLine) => if Untouched(keys, line) then [line] else []
  }

  lemma LeftAloneIsPart(keys: Dict<string>, line: EnvLine)
    ensures Subsequence(IfLeftAlone(keys)(line), Nexting(keys)(line))
  {
    assert [line][..0] == [];
  }

  /** Every line the save leaves alone survives verbatim and in order, whatever is saved: comments,
      blank lines and other variables; only blank lines at the end are trimmed. */
  lemma OtherLinesSurvive(text: string, keys: Dict<string>)
    ensures Subsequence(Trim(Filter(LinesOf(text), LeftAlone(keys))), LinesOf(Saved(text, keys)))
  {
    var lines := LinesOf(text);
    var kept := Filter(lines, LeftAlone(keys));
    MapOfFilter(Same, IfLeftAlone(keys), lines, LeftAlone(keys));
    assert Map(Same, kept) == kept;
    forall line | line in lines ensures Subsequence(IfLeftAlone(keys)(line), Nexting(keys)(line)) {
      LeftAloneIsPart(keys, line);
    }
    SubsequenceOfFlatMap(IfLeftAlone(keys), Nexting(keys), lines);
    SubsequenceOfNext(kept, keys, lines);
    SubsequenceOfFile(kept, NextLines(keys, lines));
    SavedLines(text, keys);
  }

  // ------------------------------------------------------------ nothing but the other lines

  lemma {:induction false} TrimAllBlank(lines: seq<EnvLine>, blank: seq<EnvLine>)
    requires forall l :: l in blank ==> l == BLANK
    ensures Trim(lines + blank) == Trim(lines)
  {
    if blank == [] {
      assert lines + blank == lines;
    } else {
      var n := |blank| - 1;
      var init := blank[..n];
      assert blank[n] in blank;
      assert blank == init + [BLANK];
      forall l | l in init ensures l == BLANK {
        assert l in blank;
      }
      TrimAllBlank(lines, init);
      var more := lines + init;
      assert lines + blank == more + [BLANK];
      TrimBlank(more);
    }
  }

  lemma TrimKeeps(lines: seq<EnvLine>, k: nat)
    requires k < |lines| && lines[k] != BLANK
    ensures k < |Trim(lines)|
  {
  }

  /** Up to a line that is not blank, the file holds the lines. */
  lemma FileHolds(lines: seq<EnvLine>, k: nat)
    requires k < |lines| && lines[k] != BLANK
    ensures lines[..k + 1] <= FileOf(lines)
  {
    TrimKeeps(lines, k);
  }

  /** Trimming before or after leaving out the touched lines is the same. */
  lemma {:induction false} TrimFiltered(lines: seq<EnvLine>, p: EnvLine -> bool)
    ensures Trim(Filter(Trim(lines), p)) == Trim(Filter(lines, p))
  {
    if lines != [] && lines[|lines| - 1] == BLANK {
      var init := lines[..|lines| - 1];
      assert lines == init + [BLANK];
      TrimFiltered(init, p);
      TrimBlank(init);
      BlankFiltered(init, p);
    }
  }

  lemma BlankFiltered(lines: seq<EnvLine>, p: EnvLine -> bool)
    ensures Trim(Filter(lines + [BLANK], p)) == Trim(Filter(lines, p))
  {
    FilterOneMore(lines, BLANK, p);
    TrimAllBlank(Filter(lines, p), if p(BLANK) then [BLANK] else []);
  }

  lemma FileFiltered(lines: seq<EnvLine>, p: EnvLine -> bool)
    ensures Trim(Filter(FileOf(lines), p)) == Trim(Filter(lines, p))
  {
    TrimFiltered(lines, p);
    if Trim(lines) == [] {
      TrimFiltered([BLANK], p);
    }
  }

  /** What a save leaves alone is all there is besides the lines of saved names. */
  ghost predicate NothingElse(text: string, keys: Dict<string>) {
    Trim(Filter(LinesOf(Saved(text, keys)), LeftAlone(keys))) == Trim(Filter(LinesOf(text), LeftAlone(keys)))
  }

  /** Every line that is written is one of a saved name, but for blank lines of appended keys. */
  ghost predicate AddsNoLine(keys: Dict<string>) {
    forall key, l :: WrittenFor(keys, key, l) && Untouched(keys, l) ==> l == BLANK && !Plain(key)
  }

  lemma NextLineLeavesAlone(keys: Dict<string>, line: EnvLine)
    requires AddsNoLine(keys) && ReadsAsItself(line)
    ensures Filter(NextLine(keys, line), LeftAlone(keys)) == Filter([line], LeftAlone(keys))
  {
    if !Untouched(keys, line) {
      LookupIsEntry(keys, line.name);
      ReadIsPlain(line);
      FilterOne(line, LeftAlone(keys));
      var key := (line.name, Lookup(keys, line.name).value);
      forall l | l in NextLine(keys, line) ensures !LeftAlone(keys)(l) {
        assert WrittenFor(keys, key, l);
      }
      FilterOfNone(NextLine(keys, line), LeftAlone(keys));
    }
  }

  lemma KeptLeavesAlone(keys: Dict<string>, lines: seq<EnvLine>)
    requires AddsNoLine(keys) && WellParsed(lines)
    ensures Filter(FlatMap(Nexting(keys), lines), LeftAlone(keys)) == Filter(lines, LeftAlone(keys))
  {
    forall line | line in lines ensures Filter(Nexting(keys)(line), LeftAlone(keys)) == Filter([line], LeftAlone(keys)) {
      NextLineLeavesAlone(keys, line);
    }
    FilterOfFlatMap(Nexting(keys), lines, LeftAlone(keys));
  }

  lemma AppendedAreBlank(keys: Dict<string>, missing: string -> bool, l: EnvLine)
    requires AddsNoLine(keys) && l in Filter(FlatMap(NextMissing(missing), keys), LeftAlone(keys))
    ensures l == BLANK
  {
    FlatMapMember(NextMissing(missing), keys, l);
    var key :| key in keys && l in NextMissing(missing)(key);
    assert WrittenFor(keys, key, l);
  }

  lemma NextAddsNoLine(text: string, keys: Dict<string>)
    requires AddsNoLine(keys)
    ensures NothingElse(text, keys)
  {
    var lines, p := LinesOf(text), LeftAlone(keys);
    var more := FlatMap(NextMissing(MissingFrom(lines)), keys);
    TextIsWellParsed(text);
    SavedLines(text, keys);
    FileFiltered(NextLines(keys, lines), p);
    FilterConcat(FlatMap(Nexting(keys), lines), more, p);
    KeptLeavesAlone(keys, lines);
    forall l | l in Filter(more, p) ensures l == BLANK {
      AppendedAreBlank(keys, MissingFrom(lines), l);
    }
    TrimAllBlank(Filter(lines, p), Filter(more, p));
  }

  // ------------------------------------------------------------ a key and a comment

  predicate IsComment(raw: string) {
    raw == "#" || raw == "##"
  }

  /** A file with one plain name and a comment. */
  function CommentedFile(name: string, comment: string): string {
    TextOf([name + "=", comment])
  }

  lemma CommentParses(comment: string)
    requires IsComment(comment)
    ensures ParseLine(comment) == EnvLine(comment, "", "") && Unbroken(comment)
  {
    StripOfStripped(comment);
  }

  lemma ClearedParses(name: string)
    requires ValidName(name) && Strip(name) == name
    ensures ParseLine(name + "=").name == name && Unbroken(name + "=")
  {
    NamesAreUnbroken(name);
    StartParses(name + "=", name);
  }

  /** A plain name can be on a line. */
  predicate Clearable(key: (string, string)) {
    ValidName(key.0) && Plain(key)
  }

  function Clearing(): ((string, string)) -> string {
    (key: (string, string)) => key.0 + "="
  }

  function ClearingLine(): ((string, string)) -> EnvLine {
    (key: (string, string)) => ParseLine(key.0 + "=")
  }

  /** The lines that clear some names. */
  lemma {:induction false} ClearingLines(some: Dict<string>)
    requires forall key :: key in some ==> Clearable(key)
    ensures Parsed(Map(Clearing(), some)) == Map(ClearingLine(), some)
    ensures forall k :: 0 <= k < |some| ==> Unbroken(Map(Clearing(), some)[k])
    ensures forall k :: 0 <= k < |some| ==> Map(ClearingLine(), some)[k].name == some[k].0
  {
    forall k | 0 <= k < |some| ensures ClearingLine()(some[k]).name == some[k].0 && Unbroken(Clearing()(some[k])) {
      assert some[k] in some;
      ClearedParses(some[k].0);
    }
  }

  lemma CommentedLines(name: string, comment: string) returns (line: EnvLine)
    requires ValidName(name) && Strip(name) == name && IsComment(comment)
    ensures line.name == name && LinesOf(CommentedFile(name, comment)) == [line, EnvLine(comment, "", "")]
  {
    var raws := [name + "=", comment];
    ClearedParses(name);
    CommentParses(comment);
    TextOfSplits(raws);
    line := ParseLine(raws[0]);
    ParsedTwo(raws);
  }

  lemma ParsedTwo(raws: seq<string>)
    requires |raws| == 2
    ensures Parsed(raws) == [ParseLine(raws[0]), ParseLine(raws[1])]
  {
  }

  /** What a save makes of that file. */
  lemma CommentedNext(keys: Dict<string>, key: (string, string), comment: string)
    returns (line: EnvLine, more: seq<EnvLine>)
    requires DistinctKeys(keys) && AllNamesValid(keys) && key in keys && Plain(key) && IsComment(comment)
    ensures line.name == key.0 && LinesOf(CommentedFile(key.0, comment)) == [line, EnvLine(comment, "", "")]
    ensures NextLines(keys, [line, EnvLine(comment, "", "")]) ==
      (if Valued(key) then Block(key) else []) + [EnvLine(comment, "", "")] + more
  {
    EntryIsValid(keys, key);
    EntryIsLookup(keys, key);
    line := CommentedLines(key.0, comment);
    var lines := [line, EnvLine(comment, "", "")];
    more := FlatMap(NextMissing(MissingFrom(lines)), keys);
    FlatMapTwo(Nexting(keys), lines);
  }

  lemma FlatMapTwo<A, B>(f: A -> seq<B>, s: seq<A>)
    requires |s| == 2
    ensures FlatMap(f, s) == f(s[0]) + f(s[1])
  {
    assert s == [s[0]] + [s[1]];
    FlatMapConcat(f, [s[0]], [s[1]]);
    FlatMapOne(f, s[0]);
    FlatMapOne(f, s[1]);
  }

  lemma PlainAddsLine(keys: Dict<string>, key: (string, string), l: EnvLine)
    requires DistinctKeys(keys) && AllNamesValid(keys) && WrittenFor(keys, key, l) && Untouched(keys, l) && Plain(key)
    ensures !NothingElse(CommentedFile(key.0, "#"), keys)
  {
    var p, comment := LeftAlone(keys), EnvLine("#", "", "");
    var line, more := CommentedNext(keys, key, "#");
    var text := CommentedFile(key.0, "#");
    var next := NextLines(keys, [line, comment]);
    EntryIsLookup(keys, key);
    EntryIsValid(keys, key);
    SavedLines(text, keys);
    FileFiltered(next, p);
    FilterConcat(Block(key) + [comment], more, p);
    FilterOneMore(Block(key), comment, p);
    var written := Filter(Block(key), p);
    assert l in written;
    TrimKeeps((written + [comment]) + Filter(more, p), |written|);
    FilterTwo(line, comment, p);
  }

  lemma FilterTwo(line: EnvLine, comment: EnvLine, p: EnvLine -> bool)
    requires !p(line)
    ensures |Filter([line, comment], p)| <= 1
  {
    assert [line, comment] == [line] + [comment];
    FilterOneMore([line], comment, p);
    FilterOne(line, p);
  }

  lemma PaddedAddsLine(keys: Dict<string>, key: (string, string), l: EnvLine)
    requires DistinctKeys(keys) && WrittenFor(keys, key, l) && Untouched(keys, l) && l != BLANK
    ensures !NothingElse("", keys)
  {
    var p, next := LeftAlone(keys), NextLines(keys, LinesOf(""));
    WrittenIsThere(keys, LinesOf(""), key, l);
    SavedLines("", keys);
    FileFiltered(next, p);
    assert l in Filter(next, p);
    var k :| 0 <= k < |Filter(next, p)| && Filter(next, p)[k] == l;
    TrimKeeps(Filter(next, p), k);
  }

  /** A save adds nothing besides the lines of saved names, whatever the file and but for blank
      lines at the end, exactly when every line it writes has a saved name, appended blank ones
      aside. */
  lemma OtherLinesExactly(keys: Dict<string>)
    requires DistinctKeys(keys) && AllNamesValid(keys)
    ensures (forall text :: NothingElse(text, keys)) <==> AddsNoLine(keys)
  {
    if AddsNoLine(keys) {
      forall text ensures NothingElse(text, keys) {
        NextAddsNoLine(text, keys);
      }
    }
    if forall text :: NothingElse(text, keys) {
      forall key, l | WrittenFor(keys, key, l) && Untouched(keys, l) ensures l == BLANK && !Plain(key) {
        assert NothingElse(CommentedFile(key.0, "#"), keys) && NothingElse("", keys);
        if Plain(key) {
          PlainAddsLine(keys, key, l);
        } else if l != BLANK {
          PaddedAddsLine(keys, key, l);
        }
      }
    }
  }

  // ------------------------------------------------------------ lines in place

  ghost predicate KeepPlaces(keys: Dict<string>, lines: seq<EnvLine>, after: seq<EnvLine>) {
    |lines| <= |after| && forall k :: 0 <= k < |lines| ==>
      after[k].name == lines[k].name && (Untouched(keys, lines[k]) ==> after[k] == lines[k])
  }

  /** Every line keeps its position and its name, and its text unless its name is saved; blank lines
      at the end do not count. */
  ghost predicate InPlace(text: string, keys: Dict<string>) {
    KeepPlaces(keys, Trim(LinesOf(text)), LinesOf(Saved(text, keys)))
  }

  /** Every plain key is written as one line. */
  ghost predicate OneLineEach(keys: Dict<string>) {
    forall key :: key in keys && Plain(key) ==> Valued(key) && Unbroken(Strip(key.1))
  }

  lemma HeadingIsAll(keys: Dict<string>, line: EnvLine)
    requires AllNamesValid(keys) && OneLineEach(keys) && ReadsAsItself(line)
    ensures Nexting(keys)(line) == [Heading(keys)(line)]
  {
    if !Untouched(keys, line) {
      LookupIsEntry(keys, line.name);
      ReadIsPlain(line);
      var key := (line.name, Lookup(keys, line.name).value);
      assert key in keys && Plain(key);
      EntryIsValid(keys, key);
      StorableBlock(key);
    }
  }

  lemma HeadingsKeepPlaces(keys: Dict<string>, lines: seq<EnvLine>)
    requires AllNamesValid(keys) && OneLineEach(keys) && WellParsed(lines)
    ensures KeepPlaces(keys, lines, NextLines(keys, lines))
  {
    forall line | line in lines ensures Nexting(keys)(line) == [Heading(keys)(line)] {
      HeadingIsAll(keys, line);
    }
    FlatMapOfOnes(Nexting(keys), Heading(keys), lines);
    var headings := Map(Heading(keys), lines);
    forall k | 0 <= k < |lines|
      ensures headings[k].name == lines[k].name && (Untouched(keys, lines[k]) ==> headings[k] == lines[k])
    {
      assert lines[k] in lines;
      HeadingIs(keys, lines[k]);
    }
  }

  lemma FileKeepsPlaces(keys: Dict<string>, lines: seq<EnvLine>, next: seq<EnvLine>)
    requires KeepPlaces(keys, lines, next)
    ensures KeepPlaces(keys, Trim(lines), FileOf(next))
  {
    var n := |Trim(lines)|;
    if n > 0 {
      assert Trim(lines)[n - 1] == lines[n - 1];
      assert next[n - 1] != BLANK;
      FileHolds(next, n - 1);
      forall k | 0 <= k < n ensures FileOf(next)[k] == next[k] {
        assert next[..n][k] == next[k];
      }
    }
  }

  lemma StaysInPlace(text: string, keys: Dict<string>)
    requires AllNamesValid(keys) && OneLineEach(keys)
    ensures InPlace(text, keys)
  {
    TextIsWellParsed(text);
    HeadingsKeepPlaces(keys, LinesOf(text));
    FileKeepsPlaces(keys, LinesOf(text), NextLines(keys, LinesOf(text)));
    SavedLines(text, keys);
  }

  lemma FirstMoves(keys: Dict<string>, line: EnvLine, comment: EnvLine, more: seq<EnvLine>)
    requires line.name != "" && comment.name == "" && comment != BLANK
    ensures !KeepPlaces(keys, Trim([line, comment]), FileOf([comment] + more))
  {
    TrimKeeps([line, comment], 1);
    FileHolds([comment] + more, 0);
    assert FileOf([comment] + more)[0] == comment;
  }

  lemma EmptiedMoves(keys: Dict<string>, key: (string, string))
    requires DistinctKeys(keys) && AllNamesValid(keys) && key in keys && Plain(key) && !Valued(key)
    ensures !InPlace(CommentedFile(key.0, "#"), keys)
  {
    var line, more := CommentedNext(keys, key, "#");
    EntryIsValid(keys, key);
    SavedLines(CommentedFile(key.0, "#"), keys);
    FirstMoves(keys, line, EnvLine("#", "", ""), more);
    assert [] + [EnvLine("#", "", "")] == [EnvLine("#", "", "")];
  }

  lemma SecondMoves(keys: Dict<string>, block: seq<EnvLine>, line: EnvLine, comment: EnvLine, more: seq<EnvLine>)
    requires |block| >= 2 && comment.name == "" && comment != BLANK
    requires KeepPlaces(keys, Trim([line, comment]), FileOf(block + [comment] + more))
    ensures block[1] == comment
  {
    var next := block + [comment] + more;
    TrimKeeps([line, comment], 1);
    FileHolds(next, |block|);
    assert next[..|block| + 1][1] == block[1];
    assert FileOf(next)[1] == block[1];
  }

  lemma BrokenMoves(keys: Dict<string>, key: (string, string), comment: string)
    requires DistinctKeys(keys) && AllNamesValid(keys) && key in keys && Plain(key) && Valued(key)
    requires |Block(key)| >= 2 && IsComment(comment)
    requires InPlace(CommentedFile(key.0, comment), keys)
    ensures Block(key)[1] == EnvLine(comment, "", "")
  {
    var line, more := CommentedNext(keys, key, comment);
    SavedLines(CommentedFile(key.0, comment), keys);
    SecondMoves(keys, Block(key), line, EnvLine(comment, "", ""), more);
  }

  /** Every line keeps its position, whatever the file, exactly when every plain key has a value on
      one line; padded keys are appended. */
  lemma LinesStayInPlaceExactly(keys: Dict<string>)
    requires DistinctKeys(keys) && AllNamesValid(keys)
    ensures (forall text :: InPlace(text, keys)) <==> OneLineEach(keys)
  {
    if OneLineEach(keys) {
      forall text ensures InPlace(text, keys) {
        StaysInPlace(text, keys);
      }
    }
    if forall text :: InPlace(text, keys) {
      forall key | key in keys && Plain(key) ensures Valued(key) && Unbroken(Strip(key.1)) {
        assert InPlace(CommentedFile(key.0, "#"), keys) && InPlace(CommentedFile(key.0, "##"), keys);
        if !Valued(key) {
          EmptiedMoves(keys, key);
        } else if !Unbroken(Strip(key.1)) {
          BrokenBlock(key);
          BrokenMoves(keys, key, "#");
          BrokenMoves(keys, key, "##");
        }
      }
    }
  }
}
