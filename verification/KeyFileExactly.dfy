/** The key file in plain terms: what a line, a name, a stored value and a saved text are. */
module KeyFileExactly {
  import opened Sequences
  import opened Options
  import opened OrderedDicts
  import opened Text
  import opened KeyFile

  // ------------------------------------------------------------ lines of a text

  /** Lines and the breaks behind them, woven together. */
  ghost function Woven(lines: seq<string>, breaks: seq<string>): string
    requires |lines| == |breaks|
  {
    if lines == [] then "" else lines[0] + breaks[0] + Woven(lines[1..], breaks[1..])
  }

  /** A line break: a carriage return with its line feed, or one of the other characters. */
  ghost predicate IsLineBreak(s: string) {
    s == "\r\n" || (|s| == 1 && s[0] as int in {0x0A, 0x0B, 0x0C, 0x0D, 0x1C, 0x1D, 0x1E, 0x85, 0x2028, 0x2029})
  }

  /** No line holds a break, every line but the last has a break behind it, a last line without one
      is not empty, and a carriage return is not torn from its line feed. */
  ghost predicate Cuts(lines: seq<string>, breaks: seq<string>) {
    && |lines| == |breaks|
    && (forall k :: 0 <= k < |lines| ==> forall i :: 0 <= i < |lines[k]| ==> !IsLineBreak([lines[k][i]]))
    && (forall k :: 0 <= k < |lines| ==> IsLineBreak(breaks[k]) || (k == |lines| - 1 && breaks[k] == "" && lines[k] != ""))
    && (forall k :: 0 <= k < |lines| - 1 && breaks[k] == "\r" ==>
          !(lines[k + 1] == "" && breaks[k + 1] != "" && breaks[k + 1][0] == '\n'))
  }

  lemma BreaksAre(c: char)
    ensures IsBreak(c) <==> IsLineBreak([c])
  {
  }

  /** Cutting off the first line. */
  lemma CutFirst(first: string, gap: string, lines: seq<string>, breaks: seq<string>)
    requires Cuts(lines, breaks) && Unbroken(first) && IsLineBreak(gap)
    requires gap == "\r" ==> (Woven(lines, breaks) != "" ==> Woven(lines, breaks)[0] != '\n')
    ensures Cuts([first] + lines, [gap] + breaks)
    ensures Woven([first] + lines, [gap] + breaks) == first + gap + Woven(lines, breaks)
  {
    var all, gaps := [first] + lines, [gap] + breaks;
    assert all[1..] == lines && gaps[1..] == breaks;
    forall k | 0 <= k < |all| ensures forall i :: 0 <= i < |all[k]| ==> !IsLineBreak([all[k][i]]) {
      if k == 0 {
        forall i | 0 <= i < |first| ensures !IsLineBreak([first[i]]) {
          BreaksAre(first[i]);
        }
      } else {
        assert all[k] == lines[k - 1];
      }
    }
    forall k | 0 <= k < |all| - 1 && gaps[k] == "\r"
      ensures !(all[k + 1] == "" && gaps[k + 1] != "" && gaps[k + 1][0] == '\n')
    {
      if k == 0 {
        assert all[1] == lines[0] && gaps[1] == breaks[0];
      } else {
        assert all[k + 1] == lines[k] && gaps[k] == breaks[k - 1] && gaps[k + 1] == breaks[k];
      }
    }
    forall k | 0 <= k < |all| ensures IsLineBreak(gaps[k]) || (k == |all| - 1 && gaps[k] == "" && all[k] != "") {
      assert k > 0 ==> gaps[k] == breaks[k - 1] && all[k] == lines[k - 1];
    }
  }

  lemma BreakIs(s: string, n: nat)
    requires n < |s| && IsBreak(s[n])
    ensures IsLineBreak(s[n..n + BreakWidth(s, n)])
    ensures s[n..n + BreakWidth(s, n)] == "\r" && n + BreakWidth(s, n) < |s| ==> s[n + BreakWidth(s, n)] != '\n'
  {
    var gap := s[n..n + BreakWidth(s, n)];
    if BreakWidth(s, n) == 2 {
      assert gap == "\r\n";
    } else {
      assert gap == [s[n]];
    }
  }

  lemma OneLineCuts(s: string)
    requires s != "" && Unbroken(s)
    ensures Cuts([s], [""]) && Woven([s], [""]) == s
  {
    forall i | 0 <= i < |s| ensures !IsLineBreak([s[i]]) {
      BreaksAre(s[i]);
    }
    assert Woven([s][1..], [""][1..]) == "";
    assert s + "" + "" == s;
  }

  lemma ThreePieces(s: string, n: nat, m: nat)
    requires n <= m <= |s|
    ensures s == s[..n] + s[n..m] + s[m..]
  {
  }

  lemma CutRest(first: string, gap: string, rest: string, lines: seq<string>, breaks: seq<string>)
    requires Cuts(lines, breaks) && rest == Woven(lines, breaks)
    requires Unbroken(first) && IsLineBreak(gap) && (gap == "\r" && rest != "" ==> rest[0] != '\n')
    ensures Cuts([first] + lines, [gap] + breaks)
    ensures first + gap + rest == Woven([first] + lines, [gap] + breaks)
  {
    CutFirst(first, gap, lines, breaks);
  }

  /** Splitting cuts a text into its lines. */
  lemma {:induction false} SplitCuts(s: string) returns (breaks: seq<string>)
    ensures Cuts(SplitLines(s), breaks) && s == Woven(SplitLines(s), breaks)
    decreases |s|
  {
    var n := LineEnd(s);
    if s == "" {
      breaks := [];
    } else if n == |s| {
      breaks := [""];
      assert s[..n] == s;
      OneLineCuts(s);
    } else {
      var w := BreakWidth(s, n);
      var gap, rest := s[n..n + w], s[n + w..];
      breaks := SplitCuts(rest);
      BreakIs(s, n);
      ThreePieces(s, n, n + w);
      CutRest(s[..n], gap, rest, SplitLines(rest), breaks);
      breaks := [gap] + breaks;
    }
  }

  /** The lines of a text are where its breaks leave them. */
  lemma SplitExactly(s: string)
    ensures exists breaks :: Cuts(SplitLines(s), breaks) && s == Woven(SplitLines(s), breaks)
  {
    var breaks := SplitCuts(s);
  }

  // ------------------------------------------------------------ one line, one name, one value

  /** The characters that count as space. */
  lemma SpacesExactly(c: char)
    ensures IsSpace(c) <==> c as int in {
      0x09, 0x0A, 0x0B, 0x0C, 0x0D, 0x1C, 0x1D, 0x1E, 0x1F, 0x20, 0x85, 0xA0, 0x1680,
      0x2000, 0x2001, 0x2002, 0x2003, 0x2004, 0x2005, 0x2006, 0x2007, 0x2008, 0x2009, 0x200A,
      0x2028, 0x2029, 0x202F, 0x205F, 0x3000}
  {
  }

  /** `r` is `s` without the space around it. */
  ghost predicate Trims(s: string, r: string) {
    IsStripped(s, IsSpace, r)
  }

  lemma StripTrims(s: string)
    ensures Trims(s, Strip(s))
  {
    StripBoth(s, IsSpace);
  }

  /** What the line says, without the space around it, about a name and a value. */
  ghost predicate Says(s: string, name: string, value: string) {
    if s == "" || s[0] == '#' || '=' !in s then name == "" && value == ""
    else exists before, after :: s == before + "=" + after && '=' !in before && Trims(before, name) && Trims(after, value)
  }

  lemma NoEquals(s: string)
    ensures EqualsAt(s) == |s| <==> '=' !in s
  {
  }

  lemma PartsSay(s: string, before: string, after: string)
    requires s == before + "=" + after && '=' !in before && s[0] != '#'
    ensures Says(s, Strip(before), Strip(after))
  {
    StripTrims(before);
    StripTrims(after);
    assert s[|before|] == '=';
  }

  lemma StrippedSays(raw: string, s: string, at: nat)
    requires at == EqualsAt(s)
    ensures Says(s, ParseStripped(raw, s, at).name, ParseStripped(raw, s, at).value)
  {
    NoEquals(s);
    if s != "" && s[0] != '#' && at < |s| {
      assert s == s[..at] + "=" + s[at + 1..];
      PartsSay(s, s[..at], s[at + 1..]);
    }
  }

  /** A blank line, a comment and a line without `=` assign nothing; any other line assigns what is
      behind its first `=` to the name before it. */
  lemma LineExactly(raw: string)
    ensures ParseLine(raw).raw == raw
    ensures exists s :: Trims(raw, s) && Says(s, ParseLine(raw).name, ParseLine(raw).value)
  {
    StripTrims(raw);
    StrippedSays(raw, Strip(raw), EqualsAt(Strip(raw)));
  }

  ghost predicate IsVariable(name: string) {
    && name != "" && ('A' <= name[0] <= 'Z' || name[0] == '_')
    && forall i :: 0 <= i < |name| ==> 'A' <= name[i] <= 'Z' || '0' <= name[i] <= '9' || name[i] == '_'
  }

  /** A name is accepted exactly when it is an environment variable's but for space around it. */
  lemma NameExactly(name: string)
    ensures ValidName(name) <==> exists s :: Trims(name, s) && IsVariable(s)
  {
    StripTrims(name);
    assert ValidName(name) <==> IsVariable(Strip(name));
    if s :| Trims(name, s) && IsVariable(s) {
      TrimsOnce(name, s);
    }
  }

  lemma {:induction false} TrimsOnce(s: string, r: string)
    requires Trims(s, r) && r != ""
    ensures r == Strip(s)
  {
    var before, after :| s == before + r + after && AllDropped(before, IsSpace) && AllDropped(after, IsSpace);
    LeftDropped(before, r + after);
    RightDropped(r, after);
    assert s == before + (r + after);
  }

  lemma {:induction false} LeftDropped(before: string, rest: string)
    requires AllDropped(before, IsSpace) && (rest != "" ==> !IsSpace(rest[0]))
    ensures StripLeft(before + rest, IsSpace) == rest
  {
    if before != "" {
      assert (before + rest)[1..] == before[1..] + rest;
      assert forall k :: 0 <= k < |before[1..]| ==> before[1..][k] == before[k + 1];
      LeftDropped(before[1..], rest);
    } else {
      assert before + rest == rest;
    }
  }

  lemma {:induction false} RightDropped(r: string, after: string)
    requires AllDropped(after, IsSpace) && (r != "" ==> !IsSpace(r[|r| - 1]))
    ensures StripRight(r + after, IsSpace) == r
  {
    if after != "" {
      var n := |after| - 1;
      assert (r + after)[..|r + after| - 1] == r + after[..n];
      assert (r + after)[|r + after| - 1] == after[n];
      RightDropped(r, after[..n]);
    } else {
      assert r + after == r;
    }
  }

  /** Line `k` assigns a value to the name, and no later line does. */
  ghost predicate LastAssigns(lines: seq<EnvLine>, k: int, name: string, value: string) {
    && 0 <= k < |lines| && lines[k].name == name && lines[k].value == value != ""
    && forall j :: k < j < |lines| ==> !(lines[j].name == name && lines[j].value != "")
  }

  ghost predicate Assigns(lines: seq<EnvLine>, name: string, value: string) {
    exists k :: LastAssigns(lines, k, name, value)
  }

  lemma {:induction false} StoredInExactly(lines: seq<EnvLine>, name: string, value: string)
    ensures StoredIn(lines, name) == Some(value) <==> Assigns(lines, name, value)
  {
    if lines != [] {
      var n := |lines| - 1;
      StoredInExactly(lines[..n], name, value);
      if k :| LastAssigns(lines[..n], k, name, value) {
        if !(lines[n].name == name && lines[n].value != "") {
          forall j | k < j < |lines| ensures !(lines[j].name == name && lines[j].value != "") {
            assert j < n ==> lines[j] == lines[..n][j];
          }
          assert LastAssigns(lines, k, name, value);
        }
      }
      if lines[n].name == name && lines[n].value == value != "" {
        assert LastAssigns(lines, n, name, value);
      }
      if k :| LastAssigns(lines, k, name, value) {
        if k < n {
          assert LastAssigns(lines[..n], k, name, value);
        }
      }
    }
  }

  /** A name has the value the last line gives it that gives it one. */
  lemma StoredExactly(text: string, name: string, value: string)
    ensures Stored(text, name) == Some(value) <==> name != "" && Assigns(Parsed(SplitLines(text)), name, value)
  {
    StoredInExactly(Parsed(SplitLines(text)), name, value);
  }

  // ------------------------------------------------------------ what is written

  ghost predicate IsKey(keys: Dict<string>, name: string, value: string) {
    exists i :: 0 <= i < |keys| && keys[i] == (name, value)
  }

  /** The value is nothing but space. */
  ghost predicate IsBlank(value: string) {
    AllDropped(value, IsSpace)
  }

  /** The line is taken out: it assigns to a key that is being removed. */
  ghost function Stays(keys: Dict<string>): EnvLine -> bool {
    (line: EnvLine) => line.name == "" || forall value :: IsKey(keys, line.name, value) ==> !IsBlank(value)
  }

  ghost predicate IsAssignment(entry: string, name: string, value: string) {
    exists stripped :: Trims(value, stripped) && entry == name + "=" + stripped
  }

  /** A line that stays is as it was, or assigns the new value. */
  ghost predicate BecomesEntry(keys: Dict<string>, line: EnvLine, entry: string) {
    if line.name != "" && exists value :: IsKey(keys, line.name, value) then
      exists value :: IsKey(keys, line.name, value) && IsAssignment(entry, line.name, value)
    else entry == line.raw
  }

  /** The key is appended: no line assigns it, and it has a value. */
  ghost function IsNew(lines: seq<EnvLine>): ((string, string)) -> bool {
    (key: (string, string)) => !IsBlank(key.1) && forall k :: 0 <= k < |lines| ==> lines[k].name != key.0
  }

  ghost function KeptEntry(keys: Dict<string>): (EnvLine, string) -> bool {
    (line: EnvLine, entry: string) => BecomesEntry(keys, line, entry)
  }

  ghost function NewEntry(): ((string, string), string) -> bool {
    (key: (string, string), entry: string) => IsAssignment(entry, key.0, key.1)
  }

  /** The two lists match, place by place. */
  ghost predicate Aligned<A, B>(s: seq<A>, t: seq<B>, fits: (A, B) -> bool) {
    |s| == |t| && forall k :: 0 <= k < |s| ==> fits(s[k], t[k])
  }

  lemma AlignedMore<A, B>(s: seq<A>, t: seq<B>, fits: (A, B) -> bool, a: A, b: B)
    requires Aligned(s, t, fits) && fits(a, b)
    ensures Aligned(s + [a], t + [b], fits)
  {
  }

  /** A loop that emits one piece for some elements and none for the others. */
  lemma {:induction false} FlatMapAligned<A(!new), B>(f: A -> seq<B>, s: seq<A>, p: A -> bool, fits: (A, B) -> bool)
    requires forall a :: a in s ==> if p(a) then |f(a)| == 1 && fits(a, f(a)[0]) else f(a) == []
    ensures Aligned(Filter(s, p), FlatMap(f, s), fits)
  {
    if s != [] {
      var n := |s| - 1;
      FlatMapAligned(f, s[..n], p, fits);
      assert s == s[..n] + [s[n]];
      FilterOneMore(s[..n], s[n], p);
      if p(s[n]) {
        assert f(s[n]) == [f(s[n])[0]];
        AlignedMore(Filter(s[..n], p), FlatMap(f, s[..n]), fits, s[n], f(s[n])[0]);
      } else {
        assert Filter(s[..n], p) + [] == Filter(s[..n], p);
        assert FlatMap(f, s[..n]) + [] == FlatMap(f, s[..n]);
      }
    }
  }

  /** First what the lines that stay become, then an assignment for every new key. */
  ghost predicate Renders(keys: Dict<string>, lines: seq<EnvLine>, kept: seq<string>, added: seq<string>) {
    && Aligned(Filter(lines, Stays(keys)), kept, KeptEntry(keys))
    && Aligned(Filter(keys, IsNew(lines)), added, NewEntry())
  }

  /** The entries on lines of their own, and exactly one line feed at the end. */
  ghost predicate IsText(entries: seq<string>, text: string) {
    exists body, feeds ::
      && Join("\n", entries) == body + feeds && (forall k :: 0 <= k < |feeds| ==> feeds[k] == '\n')
      && (body != "" ==> body[|body| - 1] != '\n')
      && text == body + "\n"
  }

  lemma BodyIsText(entries: seq<string>)
    ensures IsText(entries, Body(entries))
  {
    var joined := Join("\n", entries);
    var after := StripRightDrops(joined, IsLineFeed());
    var body := StripRight(joined, IsLineFeed());
    assert joined == body + after && forall k :: 0 <= k < |after| ==> IsLineFeed()(after[k]);
  }

  lemma BlankExactly(value: string)
    ensures Strip(value) == "" <==> IsBlank(value)
  {
    StripTrims(value);
    if Strip(value) == "" {
      var before, after :| value == before + "" + after && AllDropped(before, IsSpace) && AllDropped(after, IsSpace);
      assert value == before + after;
    } else {
      var before, after :| value == before + Strip(value) + after && AllDropped(before, IsSpace) && AllDropped(after, IsSpace);
      assert value[|before|] == Strip(value)[0];
    }
  }

  lemma {:induction false} KeyExactly(keys: Dict<string>, name: string, value: string)
    requires DistinctKeys(keys)
    ensures IsKey(keys, name, value) <==> Lookup(keys, name) == Some(value)
  {
    if i :| 0 <= i < |keys| && keys[i] == (name, value) {
      KeyIsThere(keys, i);
    }
    if Lookup(keys, name) == Some(value) {
      if keys[0].0 == name {
        assert keys[0] == (name, value);
      } else {
        KeyExactly(keys[1..], name, value);
        var i :| 0 <= i < |keys[1..]| && keys[1..][i] == (name, value);
        assert keys[i + 1] == (name, value);
      }
    }
  }

  /** What becomes of one line: nothing, or its entry. */
  lemma LineRendered(keys: Dict<string>, line: EnvLine)
    requires DistinctKeys(keys)
    ensures
      var rendered := RenderLine(keys, line);
      if Stays(keys)(line) then |rendered| == 1 && BecomesEntry(keys, line, rendered[0]) else rendered == []
  {
    forall value ensures IsKey(keys, line.name, value) <==> Lookup(keys, line.name) == Some(value) {
      KeyExactly(keys, line.name, value);
    }
    match Lookup(keys, line.name)
    case None =>
    case Some(value) =>
      BlankExactly(value);
      StripTrims(value);
      if line.name != "" && !IsBlank(value) {
        assert IsAssignment(Assignment(line.name, Strip(value)), line.name, value);
      }
  }

  lemma LinesRendered(keys: Dict<string>, lines: seq<EnvLine>)
    requires DistinctKeys(keys)
    ensures Aligned(Filter(lines, Stays(keys)), FlatMap(Rendering(keys), lines), KeptEntry(keys))
  {
    forall line ensures
      if Stays(keys)(line) then |Rendering(keys)(line)| == 1 && BecomesEntry(keys, line, Rendering(keys)(line)[0])
      else Rendering(keys)(line) == []
    {
      LineRendered(keys, line);
    }
    FlatMapAligned(Rendering(keys), lines, Stays(keys), KeptEntry(keys));
  }

  lemma KeyAppended(lines: seq<EnvLine>, key: (string, string))
    requires key.0 != ""
    ensures
      var added := Appending(MissingFrom(lines))(key);
      if IsNew(lines)(key) then |added| == 1 && IsAssignment(added[0], key.0, key.1) else added == []
  {
    BlankExactly(key.1);
    StripTrims(key.1);
    assert Strip(key.1) != "" ==> IsAssignment(Assignment(key.0, Strip(key.1)), key.0, key.1);
  }

  lemma KeysAppended(keys: Dict<string>, lines: seq<EnvLine>)
    requires forall k :: 0 <= k < |keys| ==> keys[k].0 != ""
    ensures Aligned(Filter(keys, IsNew(lines)), FlatMap(Appending(MissingFrom(lines)), keys), NewEntry())
  {
    var adding := Appending(MissingFrom(lines));
    forall key | key in keys ensures
      if IsNew(lines)(key) then |adding(key)| == 1 && NewEntry()(key, adding(key)[0]) else adding(key) == []
    {
      KeyAppended(lines, key);
    }
    FlatMapAligned(adding, keys, IsNew(lines), NewEntry());
  }

  /** The saved text: every line as it was, but the lines of saved keys renewed or taken out, then the
      new keys in the order they are given, and one line feed at the end. */
  lemma SavedExactly(text: string, keys: Dict<string>)
    requires DistinctKeys(keys) && AllNamesValid(keys)
    ensures exists kept, added ::
      Renders(keys, Parsed(SplitLines(text)), kept, added) && IsText(kept + added, Saved(text, keys))
  {
    var lines := Parsed(SplitLines(text));
    forall k | 0 <= k < |keys| ensures keys[k].0 != "" {
      assert ValidName(keys[k].0);
    }
    LinesRendered(keys, lines);
    KeysAppended(keys, lines);
    BodyIsText(Rendered(keys, lines));
    assert Renders(keys, lines, FlatMap(Rendering(keys), lines), FlatMap(Appending(MissingFrom(lines)), keys));
  }
}
