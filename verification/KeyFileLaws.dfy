/** What saving keys does to what the key file stores: what reads back, and what else changes. */
module KeyFileLaws {
  import opened Sequences
  import opened Options
  import opened OrderedDicts
  import opened Text
  import opened KeyFile
  import opened KeyFileText
  import opened KeyFileLines

  // ------------------------------------------------------------ what lines store

  /** A line that stores something under a name. */
  function Storing(name: string): EnvLine -> bool {
    (line: EnvLine) => line.name == name && line.value != ""
  }

  lemma StoredInOneMore(lines: seq<EnvLine>, line: EnvLine, name: string)
    ensures StoredIn(lines + [line], name) == if Storing(name)(line) then Some(line.value) else StoredIn(lines, name)
  {
    assert (lines + [line])[..|lines|] == lines;
  }

  /** Only the lines that store a name decide what is stored under it. */
  lemma {:induction false} StoredInFiltered(lines: seq<EnvLine>, name: string)
    ensures StoredIn(lines, name) == StoredIn(Filter(lines, Storing(name)), name)
  {
    if lines != [] {
      var n := |lines| - 1;
      StoredInFiltered(lines[..n], name);
      assert lines == lines[..n] + [lines[n]];
      FilterOneMore(lines[..n], lines[n], Storing(name));
      var kept := Filter(lines[..n], Storing(name));
      StoredInOneMore(lines[..n], lines[n], name);
      StoredInOneMore(kept, lines[n], name);
      assert kept + [] == kept;
    }
  }

  lemma StoredAlike(lines: seq<EnvLine>, others: seq<EnvLine>, name: string)
    requires Filter(lines, Storing(name)) == Filter(others, Storing(name))
    ensures StoredIn(lines, name) == StoredIn(others, name)
  {
    StoredInFiltered(lines, name);
    StoredInFiltered(others, name);
  }

  lemma {:induction false} StoredIsSomeLine(lines: seq<EnvLine>, name: string)
    requires StoredIn(lines, name).Some?
    ensures exists l :: l in lines && Storing(name)(l) && l.value == StoredIn(lines, name).value
  {
    var n := |lines| - 1;
    if Storing(name)(lines[n]) {
      assert lines[n] in lines;
    } else {
      StoredIsSomeLine(lines[..n], name);
      var l :| l in lines[..n] && Storing(name)(l) && l.value == StoredIn(lines, name).value;
      assert l in lines;
    }
  }

  lemma {:induction false} SomeLineIsStored(lines: seq<EnvLine>, name: string)
    requires exists l :: l in lines && Storing(name)(l)
    ensures StoredIn(lines, name).Some?
  {
    var n, l :| n == |lines| - 1 && l in lines && Storing(name)(l);
    assert lines == lines[..n] + [lines[n]];
    if !Storing(name)(lines[n]) {
      assert l in lines[..n];
      SomeLineIsStored(lines[..n], name);
    }
  }

  lemma {:induction false} StoredInTrimmed(lines: seq<EnvLine>, name: string)
    requires name != ""
    ensures StoredIn(Trim(lines), name) == StoredIn(lines, name)
  {
    if lines != [] && lines[|lines| - 1] == BLANK {
      StoredInTrimmed(lines[..|lines| - 1], name);
    }
  }

  lemma StoredInFile(lines: seq<EnvLine>, name: string)
    requires name != ""
    ensures StoredIn(FileOf(lines), name) == StoredIn(lines, name)
  {
    StoredInTrimmed(lines, name);
    if Trim(lines) == [] {
      StoredInOneMore([], BLANK, name);
      assert [] + [BLANK] == [BLANK];
    }
  }

  /** What is stored after a save. */
  lemma SavedStores(text: string, keys: Dict<string>, name: string)
    requires name != ""
    ensures Stored(Saved(text, keys), name) == StoredIn(NextLines(keys, LinesOf(text)), name)
  {
    SavedLines(text, keys);
    StoredInFile(NextLines(keys, LinesOf(text)), name);
  }

  // ------------------------------------------------------------ where the lines come from

  /** A line that is written for a key. */
  predicate WrittenFor(keys: Dict<string>, key: (string, string), line: EnvLine) {
    key in keys && Valued(key) && line in Block(key)
  }

  lemma NextLineMember(keys: Dict<string>, line: EnvLine, l: EnvLine)
    requires l in NextLine(keys, line)
    ensures (l == line && Untouched(keys, l)) || exists key :: WrittenFor(keys, key, l)
  {
    if !Untouched(keys, line) {
      LookupIsEntry(keys, line.name);
      assert WrittenFor(keys, (line.name, Lookup(keys, line.name).value), l);
    }
  }

  /** After a save every line is one that was left alone, or one that is written for a key. */
  lemma NextMember(keys: Dict<string>, lines: seq<EnvLine>, l: EnvLine)
    requires l in NextLines(keys, lines)
    ensures (l in lines && Untouched(keys, l)) || exists key :: WrittenFor(keys, key, l)
  {
    var missing := MissingFrom(lines);
    FlatMapMember(Nexting(keys), lines, l);
    FlatMapMember(NextMissing(missing), keys, l);
    if line :| line in lines && l in Nexting(keys)(line) {
      NextLineMember(keys, line, l);
    } else {
      var key :| key in keys && l in NextMissing(missing)(key);
      assert WrittenFor(keys, key, l);
    }
  }

  /** Every line of every key with a value is there after a save. */
  lemma WrittenIsThere(keys: Dict<string>, lines: seq<EnvLine>, key: (string, string), l: EnvLine)
    requires DistinctKeys(keys) && WrittenFor(keys, key, l)
    ensures l in NextLines(keys, lines)
  {
    EntryIsLookup(keys, key);
    if Assigned(lines, key.0) {
      var k :| 0 <= k < |lines| && lines[k].name == key.0;
      assert lines[k] in lines && l in Nexting(keys)(lines[k]);
      FlatMapMember(Nexting(keys), lines, l);
    } else {
      assert l in NextMissing(MissingFrom(lines))(key);
      FlatMapMember(NextMissing(MissingFrom(lines)), keys, l);
    }
  }

  // ------------------------------------------------------------ reading back

  function Expected(key: (string, string)): Option<string> {
    if Valued(key) then Some(Strip(key.1)) else None
  }

  ghost predicate ReadsBack(text: string, keys: Dict<string>) {
    forall key :: key in keys ==> Stored(Saved(text, keys), key.0) == Expected(key)
  }

  lemma SavedLineIsThere(keys: Dict<string>, lines: seq<EnvLine>, key: (string, string))
    requires DistinctKeys(keys) && AllNamesValid(keys) && StorableKey(key) && key in keys && Valued(key)
    ensures StoredIn(NextLines(keys, lines), key.0).Some?
  {
    EntryIsValid(keys, key);
    StorableBlock(key);
    assert WrittenFor(keys, key, SavedLine(key));
    WrittenIsThere(keys, lines, key, SavedLine(key));
    assert Storing(key.0)(SavedLine(key));
    SomeLineIsStored(NextLines(keys, lines), key.0);
  }

  lemma WrittenSays(keys: Dict<string>, key: (string, string), other: (string, string), l: EnvLine)
    requires DistinctKeys(keys) && AllNamesValid(keys) && Storable(keys)
    requires key in keys && WrittenFor(keys, other, l) && l.name == key.0
    ensures Valued(key) && l.value == Strip(key.1)
  {
    EntryIsValid(keys, other);
    StorableBlock(other);
    EntryIsLookup(keys, key);
    EntryIsLookup(keys, other);
    assert other == key;
  }

  lemma NextStores(keys: Dict<string>, lines: seq<EnvLine>, key: (string, string))
    requires DistinctKeys(keys) && AllNamesValid(keys) && Storable(keys) && key in keys
    ensures StoredIn(NextLines(keys, lines), key.0) == Expected(key)
  {
    var next := NextLines(keys, lines);
    EntryIsValid(keys, key);
    EntryIsLookup(keys, key);
    if Valued(key) {
      SavedLineIsThere(keys, lines, key);
    }
    if StoredIn(next, key.0).Some? {
      StoredIsSomeLine(next, key.0);
      var l :| l in next && Storing(key.0)(l) && l.value == StoredIn(next, key.0).value;
      NextMember(keys, lines, l);
      var other :| WrittenFor(keys, other, l);
      WrittenSays(keys, key, other, l);
    }
  }

  /** Whatever is stored has a plain name and a value on one line. */
  lemma StoredIsPlain(text: string, name: string)
    requires Stored(text, name).Some?
    ensures Strip(name) == name && Unbroken(Stored(text, name).value)
  {
    StoredIsSomeLine(LinesOf(text), name);
    var l :| l in LinesOf(text) && Storing(name)(l) && l.value == Stored(text, name).value;
    TextIsWellParsed(text);
    ReadIsPlain(l);
  }

  /** Saved keys read back with their stripped values, and emptied ones not at all, exactly when
      every key with a value has a plain name and no line break in the value. */
  lemma {:induction false} ReadsBackExactly(text: string, keys: Dict<string>)
    requires DistinctKeys(keys) && AllNamesValid(keys)
    ensures ReadsBack(text, keys) <==> Storable(keys)
  {
    if Storable(keys) {
      forall key | key in keys ensures Stored(Saved(text, keys), key.0) == Expected(key) {
        EntryIsValid(keys, key);
        SavedStores(text, keys, key.0);
        NextStores(keys, LinesOf(text), key);
      }
    }
    if ReadsBack(text, keys) {
      forall key | key in keys ensures StorableKey(key) {
        assert Stored(Saved(text, keys), key.0) == Expected(key);
        if Valued(key) {
          StoredIsPlain(Saved(text, keys), key.0);
        }
      }
    }
  }

  // ------------------------------------------------------------ other names

  /** Some line that is written stores something under `name`. */
  ghost predicate StoresUnder(keys: Dict<string>, name: string) {
    name != "" && exists key, l :: WrittenFor(keys, key, l) && Storing(name)(l)
  }

  /** Every line that is written stores under a saved name only, if it stores anything. */
  ghost predicate KeepsToKeys(keys: Dict<string>) {
    forall key, l :: WrittenFor(keys, key, l) && l.name != "" && l.value != "" ==> Lookup(keys, l.name).Some?
  }

  ghost predicate Undisturbed(keys: Dict<string>, name: string) {
    forall text :: Stored(Saved(text, keys), name) == Stored(text, name)
  }

  lemma NextLineStoring(keys: Dict<string>, line: EnvLine, name: string)
    requires Lookup(keys, name).None? && name != "" && !StoresUnder(keys, name)
    ensures Filter(NextLine(keys, line), Storing(name)) == Filter([line], Storing(name))
  {
    if !Untouched(keys, line) {
      LookupIsEntry(keys, line.name);
      FilterOne(line, Storing(name));
      var key := (line.name, Lookup(keys, line.name).value);
      if Valued(key) {
        BlockStoresNothing(keys, key, name);
      }
    }
  }

  lemma BlockStoresNothing(keys: Dict<string>, key: (string, string), name: string)
    requires key in keys && Valued(key) && name != "" && !StoresUnder(keys, name)
    ensures Filter(Block(key), Storing(name)) == []
  {
    forall l | l in Block(key) ensures !Storing(name)(l) {
      assert WrittenFor(keys, key, l);
    }
    FilterOfNone(Block(key), Storing(name));
  }

  lemma AppendedStoresNothing(keys: Dict<string>, missing: string -> bool, name: string)
    requires name != "" && !StoresUnder(keys, name)
    ensures Filter(FlatMap(NextMissing(missing), keys), Storing(name)) == []
  {
    var more := FlatMap(NextMissing(missing), keys);
    forall l | l in more ensures !Storing(name)(l) {
      FlatMapMember(NextMissing(missing), keys, l);
      var key :| key in keys && l in NextMissing(missing)(key);
      assert WrittenFor(keys, key, l);
    }
    FilterOfNone(more, Storing(name));
  }

  lemma KeptStoring(keys: Dict<string>, lines: seq<EnvLine>, name: string)
    requires Lookup(keys, name).None? && name != "" && !StoresUnder(keys, name)
    ensures Filter(FlatMap(Nexting(keys), lines), Storing(name)) == Filter(lines, Storing(name))
  {
    forall line | line in lines ensures Filter(Nexting(keys)(line), Storing(name)) == Filter([line], Storing(name)) {
      NextLineStoring(keys, line, name);
    }
    FilterOfFlatMap(Nexting(keys), lines, Storing(name));
  }

  lemma NextKeepsStoring(keys: Dict<string>, lines: seq<EnvLine>, name: string)
    requires Lookup(keys, name).None? && name != "" && !StoresUnder(keys, name)
    ensures Filter(NextLines(keys, lines), Storing(name)) == Filter(lines, Storing(name))
  {
    var kept, more := FlatMap(Nexting(keys), lines), FlatMap(NextMissing(MissingFrom(lines)), keys);
    KeptStoring(keys, lines, name);
    AppendedStoresNothing(keys, MissingFrom(lines), name);
    FilterConcat(kept, more, Storing(name));
  }

  /** A save leaves what is stored under another name as it was, whatever the file, exactly when no
      line it writes stores under that name. */
  lemma NameUndisturbedExactly(keys: Dict<string>, name: string)
    requires DistinctKeys(keys) && Lookup(keys, name).None?
    ensures Undisturbed(keys, name) <==> !StoresUnder(keys, name)
  {
    if name != "" && !StoresUnder(keys, name) {
      forall text ensures Stored(Saved(text, keys), name) == Stored(text, name) {
        SavedStores(text, keys, name);
        NextKeepsStoring(keys, LinesOf(text), name);
        StoredAlike(NextLines(keys, LinesOf(text)), LinesOf(text), name);
      }
    }
    if StoresUnder(keys, name) {
      var key, l :| WrittenFor(keys, key, l) && Storing(name)(l);
      WrittenIsThere(keys, LinesOf(""), key, l);
      SomeLineIsStored(NextLines(keys, LinesOf("")), name);
      SavedStores("", keys, name);
      assert Stored("", name) == None;
    }
  }

  /** Saving leaves what is stored under every other name as it was, whatever the file, exactly when
      every line that is written stores under saved names only. */
  lemma OtherNamesUndisturbed(keys: Dict<string>)
    requires DistinctKeys(keys)
    ensures (forall name :: Lookup(keys, name).None? ==> Undisturbed(keys, name)) <==> KeepsToKeys(keys)
  {
    if KeepsToKeys(keys) {
      forall name | Lookup(keys, name).None? ensures Undisturbed(keys, name) {
        NameUndisturbedExactly(keys, name);
      }
    }
    if forall name :: Lookup(keys, name).None? ==> Undisturbed(keys, name) {
      forall key, l | WrittenFor(keys, key, l) && l.name != "" && l.value != "" ensures Lookup(keys, l.name).Some? {
        if Lookup(keys, l.name).None? {
          assert Storing(l.name)(l);
          assert Undisturbed(keys, l.name);
          NameUndisturbedExactly(keys, l.name);
        }
      }
    }
  }

  /** Storable keys write nothing under other names. */
  lemma StorableKeepsToKeys(keys: Dict<string>)
    requires DistinctKeys(keys) && AllNamesValid(keys) && Storable(keys)
    ensures KeepsToKeys(keys)
  {
    forall key, l | WrittenFor(keys, key, l) ensures Lookup(keys, l.name).Some? {
      EntryIsValid(keys, key);
      StorableBlock(key);
      EntryIsLookup(keys, key);
    }
  }

  /** A save of other keys leaves what an earlier save stored, if it keeps to its own names. */
  lemma EarlierSaveStays(text: string, a: Dict<string>, b: Dict<string>, name: string)
    requires DistinctKeys(b) && KeepsToKeys(b) && Lookup(b, name).None?
    ensures Stored(Saved(Saved(text, a), b), name) == Stored(Saved(text, a), name)
  {
    OtherNamesUndisturbed(b);
    assert Undisturbed(b, name);
  }
}
