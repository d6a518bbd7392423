/** The key file: parsing, and saving keys into it by parse, merge and render. */
module KeyFile {
  import opened Sequences
  import opened Options
  import opened OrderedDicts
  import opened Text

  /** One line of the file. The name is empty for a line that assigns nothing. */
  datatype EnvLine = EnvLine(raw: string, name: string, value: string)

  /** The first `=`, or the length when there is none. */
  function EqualsAt(s: string): (i: nat)
    ensures i <= |s|
    ensures i < |s| ==> s[i] == '='
    ensures forall k :: 0 <= k < i ==> s[k] != '='
  {
    if s == "" || s[0] == '=' then 0 else 1 + EqualsAt(s[1..])
  }

  /** The line with stripped text `stripped`, whose first `=` is at `at`. */
  function ParseStripped(raw: string, stripped: string, at: nat): EnvLine
    requires at <= |stripped|
  {
    if stripped == "" || stripped[0] == '#' || at == |stripped| then EnvLine(raw, "", "")
    else EnvLine(raw, Strip(stripped[..at]), Strip(stripped[at + 1..]))
  }

  function ParseLine(raw: string): EnvLine {
    ParseStripped(raw, Strip(raw), EqualsAt(Strip(raw)))
  }

  function Parsed(raws: seq<string>): seq<EnvLine> {
    Map(ParseLine, raws)
  }

  method ParseEnvFile(text: string) returns (lines: seq<EnvLine>)
    ensures lines == Parsed(SplitLines(text))
  {
    lines := ParseLines(SplitLines(text));
  }

  method ParseLines(raws: seq<string>) returns (lines: seq<EnvLine>)
    ensures lines == Parsed(raws)
  {
    lines := [];
    for k := 0 to |raws|
      invariant lines == Map(ParseLine, raws[..k])
    {
      MapOneMore(ParseLine, raws, k);
      var line := ParseLine(raws[k]);
      lines := lines + [line];
    }
    assert raws[..|raws|] == raws;
  }

  /** The value some lines store under a name: the last one that is not empty. */
  function StoredIn(lines: seq<EnvLine>, name: string): Option<string> {
    if lines == [] then None
    else
      var line := lines[|lines| - 1];
      if line.name == name && line.value != "" then Some(line.value)
      else StoredIn(lines[..|lines| - 1], name)
  }

  function Stored(text: string, name: string): Option<string> {
    if name == "" then None else StoredIn(Parsed(SplitLines(text)), name)
  }

  method LoadAllStored(text: string) returns (stored: map<string, string>)
    ensures forall name :: name in stored <==> Stored(text, name).Some?
    ensures forall name :: name in stored ==> Stored(text, name) == Some(stored[name])
  {
    var lines := ParseEnvFile(text);
    stored := CollectStored(lines);
  }

  method CollectStored(lines: seq<EnvLine>) returns (stored: map<string, string>)
    ensures forall name :: name in stored <==> name != "" && StoredIn(lines, name).Some?
    ensures forall name :: name in stored ==> StoredIn(lines, name) == Some(stored[name])
  {
    stored := map[];
    for k := 0 to |lines|
      invariant forall name :: name in stored <==> name != "" && StoredIn(lines[..k], name).Some?
      invariant forall name :: name in stored ==> StoredIn(lines[..k], name) == Some(stored[name])
    {
      var line := lines[k];
      StoredOneMore(lines, k);
      if line.name != "" && line.value != "" {
        stored := stored[line.name := line.value];
      }
    }
    assert lines[..|lines|] == lines;
  }

  lemma StoredOneMore(lines: seq<EnvLine>, k: nat)
    requires k < |lines|
    ensures forall name :: (
      StoredIn(lines[..k + 1], name) ==
      if lines[k].name == name && lines[k].value != "" then Some(lines[k].value) else StoredIn(lines[..k], name))
  {
    var more := lines[..k + 1];
    assert more[..|more| - 1] == lines[..k] && more[|more| - 1] == lines[k];
    forall name ensures StoredIn(more, name) ==
      if lines[k].name == name && lines[k].value != "" then Some(lines[k].value) else StoredIn(more[..|more| - 1], name)
    {
    }
  }

  // ------------------------------------------------------------ saving

  /** `[A-Z_][A-Z0-9_]*`, once stripped: validation drops the stripped name afterwards. */
  predicate ValidName(name: string) {
    var s := Strip(name);
    s != "" && NameStart(s[0]) && forall i :: 0 <= i < |s| ==> NameStart(s[i]) || '0' <= s[i] <= '9'
  }

  predicate NameStart(c: char) {
    'A' <= c <= 'Z' || c == '_'
  }

  /** `name=value`, as it is written to the file. */
  function Assignment(name: string, value: string): string {
    name + "=" + value
  }

  /** What an existing line becomes: itself, the new assignment, or nothing. */
  function RenderLine(keys: Dict<string>, line: EnvLine): seq<string> {
    match Lookup(keys, line.name)
    case Some(value) =>
      if line.name == "" then [line.raw]
      else if Strip(value) == "" then []
      else [Assignment(line.name, Strip(value))]
    case None => [line.raw]
  }

  function Rendering(keys: Dict<string>): EnvLine -> seq<string> {
    (line: EnvLine) => RenderLine(keys, line)
  }

  /** Whether some line already assigns `name`. */
  ghost predicate Assigned(lines: seq<EnvLine>, name: string) {
    name != "" && exists k :: 0 <= k < |lines| && lines[k].name == name
  }

  ghost function MissingFrom(lines: seq<EnvLine>): string -> bool {
    (name: string) => !Assigned(lines, name)
  }

  /** The assignment of a key that is missing and has a value. */
  function Appending(missing: string -> bool): ((string, string)) -> seq<string> {
    (key: (string, string)) =>
      if missing(key.0) && Strip(key.1) != "" then [Assignment(key.0, Strip(key.1))] else []
  }

  ghost function Rendered(keys: Dict<string>, lines: seq<EnvLine>): seq<string> {
    FlatMap(Rendering(keys), lines) + FlatMap(Appending(MissingFrom(lines)), keys)
  }

  function IsLineFeed(): char -> bool {
    (c: char) => c == '\n'
  }

  function Body(lines: seq<string>): string {
    StripRight(Join("\n", lines), IsLineFeed()) + "\n"
  }

  ghost function Saved(text: string, keys: Dict<string>): string {
    Body(Rendered(keys, Parsed(SplitLines(text))))
  }

  /** The new text, or the first name that is no environment variable's. */
  datatype SaveResult = Written(text: string) | BadName(name: string)

  ghost predicate AllNamesValid(keys: Dict<string>) {
    forall i :: 0 <= i < |keys| ==> ValidName(keys[i].0)
  }

  ghost predicate FirstBadName(keys: Dict<string>, name: string) {
    exists i :: 0 <= i < |keys| && keys[i].0 == name && !ValidName(name) &&
      forall j :: 0 <= j < i ==> ValidName(keys[j].0)
  }

  method SaveKeys(text: string, keys: Dict<string>) returns (r: SaveResult)
    requires DistinctKeys(keys)
    ensures AllNamesValid(keys) ==> r == Written(Saved(text, keys))
    ensures !AllNamesValid(keys) ==> r.BadName? && FirstBadName(keys, r.name)
  {
    for i := 0 to |keys|
      invariant forall j :: 0 <= j < i ==> ValidName(keys[j].0)
    {
      if !ValidName(keys[i].0) {
        return BadName(keys[i].0);
      }
    }
    var existing := ParseEnvFile(text);
    var rendered := Render(keys, existing);
    r := Written(Body(rendered));
  }

  method Render(keys: Dict<string>, existing: seq<EnvLine>) returns (rendered: seq<string>)
    requires DistinctKeys(keys)
    ensures rendered == Rendered(keys, existing)
  {
    var written: set<string>;
    rendered, written := RenderExisting(keys, existing);
    rendered := AppendMissing(keys, existing, rendered, written);
  }

  ghost predicate WrittenNames(keys: Dict<string>, lines: seq<EnvLine>, written: set<string>) {
    forall name :: name in written <==> Assigned(lines, name) && Lookup(keys, name).Some?
  }

  method RenderExisting(keys: Dict<string>, existing: seq<EnvLine>) returns (rendered: seq<string>, written: set<string>)
    ensures rendered == FlatMap(Rendering(keys), existing)
    ensures WrittenNames(keys, existing, written)
  {
    rendered, written := [], {};
    for k := 0 to |existing|
      invariant rendered == FlatMap(Rendering(keys), existing[..k])
      invariant WrittenNames(keys, existing[..k], written)
    {
      var line := existing[k];
      AssignedOneMore(existing, k);
      FlatMapOneMore(Rendering(keys), existing, k);
      var value := Lookup(keys, line.name);
      if line.name == "" || value.None? {
        rendered := rendered + [line.raw];
      } else {
        written := written + {line.name};
        if Strip(value.value) != "" {
          rendered := rendered + [Assignment(line.name, Strip(value.value))];
        }
      }
    }
    assert existing[..|existing|] == existing;
  }

  method AppendMissing(keys: Dict<string>, ghost existing: seq<EnvLine>, kept: seq<string>, written: set<string>)
    returns (rendered: seq<string>)
    requires DistinctKeys(keys) && WrittenNames(keys, existing, written)
    ensures rendered == kept + FlatMap(Appending(MissingFrom(existing)), keys)
  {
    rendered := kept;
    ghost var appending := Appending(MissingFrom(existing));
    for n := 0 to |keys|
      invariant rendered == kept + FlatMap(appending, keys[..n])
    {
      var name, value := keys[n].0, Strip(keys[n].1);
      KeyIsThere(keys, n);
      assert name !in written <==> MissingFrom(existing)(name);
      var more := if name !in written && value != "" then [Assignment(name, value)] else [];
      assert more == appending(keys[n]);
      FlatMapOneMore(appending, keys, n);
      Regroup(kept, FlatMap(appending, keys[..n]), more);
      rendered := rendered + more;
    }
    assert keys[..|keys|] == keys;
  }

  lemma Regroup<T>(a: seq<T>, b: seq<T>, c: seq<T>)
    ensures (a + b) + c == a + (b + c)
  {
  }

  lemma AssignedOneMore(lines: seq<EnvLine>, k: nat)
    requires k < |lines|
    ensures forall name :: Assigned(lines[..k + 1], name) <==> Assigned(lines[..k], name) || (name != "" && lines[k].name == name)
  {
    forall name ensures Assigned(lines[..k + 1], name) <==> Assigned(lines[..k], name) || (name != "" && lines[k].name == name) {
      assert lines[..k + 1][k] == lines[k];
      if Assigned(lines[..k], name) {
        var j :| 0 <= j < k && lines[..k][j].name == name;
        assert lines[..k + 1][j].name == name;
      }
      if Assigned(lines[..k + 1], name) && lines[k].name != name {
        var j :| 0 <= j < k + 1 && lines[..k + 1][j].name == name;
        assert lines[..k][j].name == name;
      }
    }
  }

  lemma {:induction false} KeyIsThere(keys: Dict<string>, n: nat)
    requires DistinctKeys(keys) && n < |keys|
    ensures Lookup(keys, keys[n].0) == Some(keys[n].1)
  {
    if n > 0 {
      KeyIsThere(keys[1..], n - 1);
    }
  }
}
