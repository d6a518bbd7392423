/** A save of the key file, line by line: which lines each existing line and each appended key
    becomes. */
module KeyFileLines {
  import opened Sequences
  import opened Options
  import opened OrderedDicts
  import opened Text
  import opened KeyFile
  import opened KeyFileText

  const BLANK := EnvLine("", "", "")

  /** The lines without the blank ones at the end. */
  function Trim(lines: seq<EnvLine>): (r: seq<EnvLine>)
    ensures |r| <= |lines| && r == lines[..|r|]
    ensures forall k :: |r| <= k < |lines| ==> lines[k] == BLANK
    ensures r != [] ==> r[|r| - 1] != BLANK
  {
    if lines != [] && lines[|lines| - 1] == BLANK then Trim(lines[..|lines| - 1]) else lines
  }

  /** What a file holds once it has been written: a blank file is one blank line. */
  function FileOf(lines: seq<EnvLine>): seq<EnvLine> {
    if Trim(lines) == [] then [BLANK] else Trim(lines)
  }

  /** The lines of a text. */
  function LinesOf(text: string): seq<EnvLine> {
    Parsed(SplitLines(text))
  }

  /** The lines that one rendered entry fills. */
  function EntryLines(raw: string): seq<EnvLine> {
    Parsed(Pieces(raw))
  }

  /** A line that reads back as itself and is one line. */
  ghost predicate ReadsAsItself(line: EnvLine) {
    line == ParseLine(line.raw) && Unbroken(line.raw)
  }

  ghost predicate WellParsed(lines: seq<EnvLine>) {
    forall l :: l in lines ==> ReadsAsItself(l)
  }

  lemma ParsedIsWellParsed(raws: seq<string>)
    requires forall raw :: raw in raws ==> Unbroken(raw)
    ensures WellParsed(Parsed(raws))
  {
    forall l | l in Parsed(raws) ensures ReadsAsItself(l) {
      var k :| 0 <= k < |raws| && Parsed(raws)[k] == l;
      assert raws[k] in raws;
    }
  }

  lemma TextIsWellParsed(text: string)
    ensures WellParsed(LinesOf(text))
  {
    ParsedIsWellParsed(SplitLines(text));
  }

  lemma BlankParses(raw: string)
    ensures ParseLine(raw) == BLANK <==> raw == ""
  {
  }

  lemma EntryOfLine(line: EnvLine)
    requires ReadsAsItself(line)
    ensures EntryLines(line.raw) == [line]
  {
    OneLine(line.raw);
    ParsedOne(line.raw);
  }

  lemma ParsedOne(raw: string)
    ensures Parsed([raw]) == [ParseLine(raw)]
  {
    assert [raw][1..] == [];
  }

  /** An entry that is not empty does not end in a blank line. */
  lemma EntryEnds(raw: string)
    requires raw != "" && Ended(raw)
    ensures EntryLines(raw) != [] && EntryLines(raw)[|EntryLines(raw)| - 1] != BLANK
  {
    LastPiece(raw);
    var pieces := SplitLines(raw);
    MapLast(ParseLine, pieces);
    BlankParses(pieces[|pieces| - 1]);
  }

  lemma TrimBlank(lines: seq<EnvLine>)
    ensures Trim(lines + [BLANK]) == Trim(lines)
  {
    assert (lines + [BLANK])[..|lines|] == lines;
  }

  lemma TrimNothing(lines: seq<EnvLine>, more: seq<EnvLine>)
    requires more != [] && more[|more| - 1] != BLANK
    ensures Trim(lines + more) == lines + more
  {
  }

  /** `lines` is one blank line, for an empty entry, or does not end in a blank line. */
  predicate EndsAs(raw: string, lines: seq<EnvLine>) {
    if raw == "" then lines == [BLANK] else lines != [] && lines[|lines| - 1] != BLANK
  }

  lemma {:induction false} TrimFilled(f: string -> seq<EnvLine>, raws: seq<string>)
    requires forall k :: 0 <= k < |raws| ==> EndsAs(raws[k], f(raws[k]))
    ensures Trim(FlatMap(f, raws)) == FlatMap(f, TrimRaw(raws))
  {
    if raws != [] {
      var n := |raws| - 1;
      var before := FlatMap(f, raws[..n]);
      assert EndsAs(raws[n], f(raws[n]));
      if raws[n] == "" {
        TrimFilled(f, raws[..n]);
        TrimBlank(before);
      } else {
        TrimNothing(before, f(raws[n]));
      }
    }
  }

  lemma EntryEndsAs(raw: string)
    requires Ended(raw)
    ensures EndsAs(raw, EntryLines(raw))
  {
    if raw == "" {
      BlankParses(raw);
      ParsedOne(raw);
    } else {
      EntryEnds(raw);
    }
  }

  /** The lines of a rendered text are the lines of its entries. */
  lemma ParsedBody(raws: seq<string>)
    requires AllEnded(raws)
    ensures LinesOf(Body(raws)) == FileOf(FlatMap(EntryLines, raws))
  {
    BodyLines(raws);
    forall k | 0 <= k < |raws| ensures EndsAs(raws[k], EntryLines(raws[k])) {
      assert Ended(raws[k]);
      EntryEndsAs(raws[k]);
    }
    TrimFilled(EntryLines, raws);
    var trimmed := TrimRaw(raws);
    if trimmed == [] {
      BlankParses("");
      ParsedOne("");
    } else {
      forall raw | raw in trimmed ensures Map(ParseLine, Pieces(raw)) == EntryLines(raw) {
      }
      MapOfFlatMap(ParseLine, Pieces, EntryLines, trimmed);
      assert trimmed[|trimmed| - 1] in trimmed;
      EntriesAreLines(trimmed);
    }
  }

  lemma EntriesAreLines(raws: seq<string>)
    requires raws != [] && raws == TrimRaw(raws) && AllEnded(raws)
    ensures FlatMap(EntryLines, raws) != []
  {
    var n := |raws| - 1;
    assert Ended(raws[n]);
    EntryEnds(raws[n]);
  }

  // ------------------------------------------------------------ what a save does to the lines

  /** A key that has a value to be written. */
  predicate Valued(key: (string, string)) {
    Strip(key.1) != ""
  }

  /** A name without space around it. */
  predicate Plain(key: (string, string)) {
    Strip(key.0) == key.0
  }

  /** The entry a key is written as. */
  function Entry(key: (string, string)): string {
    Assignment(key.0, Strip(key.1))
  }

  /** The lines a key is written as: more than one when a break is written with it. */
  function Block(key: (string, string)): seq<EnvLine> {
    EntryLines(Entry(key))
  }

  /** A line the save reproduces: no assignment, or one to a name that is not being saved. */
  predicate Untouched(keys: Dict<string>, line: EnvLine) {
    line.name == "" || Lookup(keys, line.name).None?
  }

  /** What an existing line becomes. */
  function NextLine(keys: Dict<string>, line: EnvLine): seq<EnvLine> {
    if Untouched(keys, line) then [line]
    else
      var key := (line.name, Lookup(keys, line.name).value);
      if Valued(key) then Block(key) else []
  }

  function Nexting(keys: Dict<string>): EnvLine -> seq<EnvLine> {
    (line: EnvLine) => NextLine(keys, line)
  }

  function NextMissing(missing: string -> bool): ((string, string)) -> seq<EnvLine> {
    (key: (string, string)) => if missing(key.0) && Valued(key) then Block(key) else []
  }

  /** The lines a file of `lines` has after `keys` are saved, before blank lines are trimmed. */
  ghost function NextLines(keys: Dict<string>, lines: seq<EnvLine>): seq<EnvLine> {
    FlatMap(Nexting(keys), lines) + FlatMap(NextMissing(MissingFrom(lines)), keys)
  }

  lemma EntryIsEnded(key: (string, string))
    requires Valued(key)
    ensures Entry(key) != "" && Ended(Entry(key))
  {
    var value := Strip(key.1);
    assert Entry(key)[|Entry(key)| - 1] == value[|value| - 1];
  }

  lemma BlockEnds(key: (string, string))
    requires Valued(key)
    ensures Block(key) != [] && Block(key)[|Block(key)| - 1] != BLANK
  {
    EntryIsEnded(key);
    EntryEnds(Entry(key));
  }

  lemma LineFills(keys: Dict<string>, line: EnvLine)
    requires ReadsAsItself(line)
    ensures FlatMap(EntryLines, RenderLine(keys, line)) == NextLine(keys, line)
  {
    if Untouched(keys, line) {
      EntryOfLine(line);
      FlatMapOne(EntryLines, line.raw);
    } else {
      FlatMapOne(EntryLines, Entry((line.name, Lookup(keys, line.name).value)));
    }
  }

  lemma KeyFills(missing: string -> bool, key: (string, string))
    ensures FlatMap(EntryLines, Appending(missing)(key)) == NextMissing(missing)(key)
  {
    FlatMapOne(EntryLines, Entry(key));
  }

  /** The entries that are rendered fill the next lines. */
  lemma RenderedFills(keys: Dict<string>, lines: seq<EnvLine>)
    requires WellParsed(lines)
    ensures FlatMap(EntryLines, Rendered(keys, lines)) == NextLines(keys, lines)
  {
    var missing := MissingFrom(lines);
    forall line | line in lines ensures FlatMap(EntryLines, Rendering(keys)(line)) == Nexting(keys)(line) {
      LineFills(keys, line);
    }
    forall key | key in keys ensures FlatMap(EntryLines, Appending(missing)(key)) == NextMissing(missing)(key) {
      KeyFills(missing, key);
    }
    FlatMapOfFlatMap(EntryLines, Rendering(keys), Nexting(keys), lines);
    FlatMapOfFlatMap(EntryLines, Appending(missing), NextMissing(missing), keys);
    FlatMapConcat(EntryLines, FlatMap(Rendering(keys), lines), FlatMap(Appending(missing), keys));
  }

  lemma RenderedIsEnded(keys: Dict<string>, lines: seq<EnvLine>)
    requires WellParsed(lines)
    ensures AllEnded(Rendered(keys, lines))
  {
    var rendered, missing := Rendered(keys, lines), MissingFrom(lines);
    forall k | 0 <= k < |rendered| ensures Ended(rendered[k]) {
      FlatMapMember(Rendering(keys), lines, rendered[k]);
      FlatMapMember(Appending(missing), keys, rendered[k]);
      if line :| line in lines && rendered[k] in Rendering(keys)(line) {
        LineIsEnded(keys, line, rendered[k]);
      } else {
        var key :| key in keys && rendered[k] in Appending(missing)(key);
        EntryIsEnded(key);
      }
    }
  }

  lemma LineIsEnded(keys: Dict<string>, line: EnvLine, raw: string)
    requires ReadsAsItself(line) && raw in RenderLine(keys, line)
    ensures Ended(raw)
  {
    if !Untouched(keys, line) {
      EntryIsEnded((line.name, Lookup(keys, line.name).value));
    }
  }

  /** The file after a save, line by line. */
  lemma SavedLines(text: string, keys: Dict<string>)
    ensures LinesOf(Saved(text, keys)) == FileOf(NextLines(keys, LinesOf(text)))
  {
    var lines := LinesOf(text);
    TextIsWellParsed(text);
    RenderedFills(keys, lines);
    RenderedIsEnded(keys, lines);
    ParsedBody(Rendered(keys, lines));
  }

  // ------------------------------------------------------------ names, heads and single lines

  lemma {:induction false} LookupIsEntry(keys: Dict<string>, name: string)
    requires Lookup(keys, name).Some?
    ensures (name, Lookup(keys, name).value) in keys
  {
    if keys[0].0 == name {
      assert keys[0] == (name, Lookup(keys, name).value);
    } else {
      LookupIsEntry(keys[1..], name);
    }
  }

  lemma EntryIsLookup(keys: Dict<string>, key: (string, string))
    requires DistinctKeys(keys) && key in keys
    ensures Lookup(keys, key.0) == Some(key.1)
  {
    var i :| 0 <= i < |keys| && keys[i] == key;
    KeyIsThere(keys, i);
  }

  lemma EntryIsValid(keys: Dict<string>, key: (string, string))
    requires AllNamesValid(keys) && key in keys
    ensures ValidName(key.0) && key.0 != ""
  {
    var i :| 0 <= i < |keys| && keys[i] == key;
    assert ValidName(keys[i].0);
  }

  lemma PartIsUnbroken(s: string, from: nat, to: nat)
    requires Unbroken(s) && from <= to <= |s|
    ensures Unbroken(s[from..to])
  {
  }

  /** Whatever is read has a plain name and a value on one line. */
  lemma ReadIsPlain(line: EnvLine)
    requires ReadsAsItself(line)
    ensures Strip(line.name) == line.name && Unbroken(line.value)
  {
    var s := Strip(line.raw);
    var at := EqualsAt(s);
    StripUnbroken(line.raw);
    assert line == ParseStripped(line.raw, s, at);
    if s != "" && s[0] != '#' && at < |s| {
      StripTwice(s[..at]);
      PartIsUnbroken(s, at + 1, |s|);
      assert s[at + 1..|s|] == s[at + 1..];
      StripUnbroken(s[at + 1..]);
    }
  }

  lemma NamesAreUnbroken(name: string)
    requires ValidName(name) && Strip(name) == name
    ensures Unbroken(name) && name != "" && name[0] != '#' && !IsSpace(name[0])
    ensures forall k :: 0 <= k < |name| ==> name[k] != '='
  {
  }

  lemma {:induction false} EqualsAtIs(s: string, n: nat)
    requires n < |s| && s[n] == '=' && forall k :: 0 <= k < n ==> s[k] != '='
    ensures EqualsAt(s) == n
  {
    if n > 0 {
      EqualsAtIs(s[1..], n - 1);
    }
  }

  lemma {:induction false} StripRightKeeps(s: string, drop: char -> bool, n: nat)
    requires n < |s| && !drop(s[n])
    ensures n < |StripRight(s, drop)|
  {
    if drop(s[|s| - 1]) {
      StripRightKeeps(s[..|s| - 1], drop, n);
    }
  }

  /** Text that starts `name=` parses as a line of that name. */
  lemma StartParses(raw: string, name: string)
    requires ValidName(name) && Strip(name) == name
    requires |name| < |raw| && raw[..|name|] == name && raw[|name|] == '='
    ensures ParseLine(raw).name == name
  {
    NamesAreUnbroken(name);
    assert raw[0] == name[0];
    StripRightIsPrefix(raw, IsSpace);
    StripRightKeeps(raw, IsSpace, |name|);
    var s := Strip(raw);
    assert s == raw[..|s|];
    assert s[..|name|] == name;
    assert forall k :: 0 <= k < |name| ==> s[k] == name[k];
    EqualsAtIs(s, |name|);
    assert ParseLine(raw) == ParseStripped(raw, s, |name|);
  }

  lemma {:induction false} LineEndBeyond(s: string, n: nat)
    requires n <= |s| && Unbroken(s[..n])
    ensures n <= LineEnd(s)
  {
    if n > 0 {
      assert s[..n][0] == s[0];
      assert s[1..][..n - 1] == s[..n][1..];
      LineEndBeyond(s[1..], n - 1);
    }
  }

  /** The first line of a plain name's entry assigns that name. */
  lemma PlainHead(key: (string, string))
    requires ValidName(key.0) && Plain(key) && Valued(key)
    ensures Block(key) != [] && Block(key)[0].name == key.0
  {
    var entry, name := Entry(key), key.0;
    NamesAreUnbroken(name);
    assert entry[..|name| + 1] == name + "=";
    LineEndBeyond(entry, |name| + 1);
    var n := LineEnd(entry);
    var first := entry[..n];
    assert first[..|name|] == name && first[|name|] == '=';
    StartParses(first, name);
    FirstPiece(entry, n);
  }

  lemma FirstPiece(s: string, n: nat)
    requires s != "" && n == LineEnd(s)
    ensures SplitLines(s) != [] && SplitLines(s)[0] == s[..n]
  {
    if n == |s| {
      assert s[..n] == s;
    }
  }

  /** Keys the file can hold: every value that is stored has no line break in it, and its name no
      space around it. */
  ghost predicate Storable(keys: Dict<string>) {
    forall key :: key in keys ==> StorableKey(key)
  }

  predicate StorableKey(key: (string, string)) {
    Valued(key) ==> Plain(key) && Unbroken(Strip(key.1))
  }

  /** The line a storable key becomes. */
  function SavedLine(key: (string, string)): EnvLine {
    EnvLine(Entry(key), key.0, Strip(key.1))
  }

  lemma AssignmentShape(name: string, value: string)
    requires name != "" && value != ""
    ensures
      var s := Assignment(name, value);
      && s[0] == name[0] && s[|s| - 1] == value[|value| - 1] && s[|name|] == '='
      && s[..|name|] == name && s[|name| + 1..] == value
      && forall k :: 0 <= k < |name| ==> s[k] == name[k]
  {
  }

  lemma ParsesAs(s: string, n: nat)
    requires Strip(s) == s && n < |s| && s[0] != '#' && EqualsAt(s) == n
    ensures ParseLine(s) == EnvLine(s, Strip(s[..n]), Strip(s[n + 1..]))
  {
    assert ParseLine(s) == ParseStripped(s, s, n);
  }

  lemma AssignmentStripped(s: string, name: string, value: string)
    requires name != "" && value != "" && s == Assignment(name, value)
    requires Strip(name) == name && Strip(value) == value
    ensures Strip(s) == s
  {
    AssignmentShape(name, value);
    StripOfStripped(s);
  }

  lemma AssignmentParses(name: string, value: string)
    requires ValidName(name) && Strip(name) == name && Strip(value) == value != ""
    ensures ParseLine(Assignment(name, value)) == EnvLine(Assignment(name, value), name, value)
  {
    NamesAreUnbroken(name);
    var s := Assignment(name, value);
    AssignmentStripped(s, name, value);
    AssignmentShape(name, value);
    EqualsAtIs(s, |name|);
    ParsesAs(s, |name|);
  }

  lemma AssignmentUnbroken(name: string, value: string)
    requires Unbroken(name) && Unbroken(value)
    ensures Unbroken(Assignment(name, value))
  {
  }

  /** A storable key is written as one line. */
  lemma StorableBlock(key: (string, string))
    requires ValidName(key.0) && Valued(key) && StorableKey(key)
    ensures Block(key) == [SavedLine(key)]
  {
    StripTwice(key.1);
    AssignmentParses(key.0, Strip(key.1));
    NamesAreUnbroken(key.0);
    AssignmentUnbroken(key.0, Strip(key.1));
    EntryOfLine(SavedLine(key));
  }

  /** A plain key that is written as one line is storable. */
  lemma BrokenBlock(key: (string, string))
    requires Valued(key) && !Unbroken(Strip(key.1))
    ensures |Block(key)| >= 2
  {
    EntryIsEnded(key);
    var entry, value := Entry(key), Strip(key.1);
    var k :| 0 <= k < |value| && IsBreak(value[k]);
    assert entry[|key.0| + 1 + k] == value[k];
    BrokenIsMoreLines(entry);
  }
}
