/** What decoding a result makes of every key of the message, present or absent. */
module ResultDecoding {
  import opened Options
  import opened OrderedDicts
  import opened Sequences
  import opened ResultCodec

  // ------------------------------------------------------------ what a message mentions

  /** A node id, with a source or without. */
  datatype Mention = Mention(id: string, source: Option<string>)

  /** Neither null nor false, zero or empty. */
  ghost predicate IsTrue(j: Json) {
    && j != JNull && j != JBool(false) && j != JInt(0) && j != JFloat(0.0)
    && j != JString("") && j != JArray([]) && j != JObject([])
  }

  lemma TruthyIs(j: Json)
    ensures Truthy(j) <==> IsTrue(j)
  {
  }

  /** `key` is absent, or present with something that reads as false. */
  ghost predicate ReadsEmpty(key: Option<Json>) {
    key.None? || !IsTrue(key.value)
  }

  /** The ids of `modified_nodes`. */
  ghost predicate IdsGiven(reader: Reader, key: Option<Json>, ids: seq<Mention>) {
    if ReadsEmpty(key) then ids == []
    else
      && key.value.JArray? && |ids| == |key.value.items|
      && forall k :: 0 <= k < |ids| ==> ids[k] == Mention(reader.text(key.value.items[k]), None)
  }

  /** The elements of `modified_fragments`: an array, a lone object, or one of them in a string. */
  ghost predicate FragmentsListed(reader: Reader, key: Option<Json>, list: seq<Json>) {
    match key
    case None => list == []
    case Some(JNull) => list == []
    case Some(JArray(items)) => list == items
    case Some(JObject(fields)) => list == [JObject(fields)]
    case Some(JString(s)) =>
      reader.loads(s) == Some(JArray(list)) ||
      exists fields :: reader.loads(s) == Some(JObject(fields)) && list == [JObject(fields)]
    case _ => false
  }

  /** A fragment names a node and gives its source, or none. */
  ghost predicate FragmentGives(fragment: Json, m: Mention) {
    && fragment.JObject? && m.id != "" && Lookup(fragment.fields, "node_id") == Some(JString(m.id))
    && match m.source
       case Some(s) => Lookup(fragment.fields, "new_source") == Some(JString(s))
       case None => Lookup(fragment.fields, "new_source") in {None, Some(JNull)}
  }

  ghost predicate FragmentsGiven(reader: Reader, key: Option<Json>, fragments: seq<Mention>) {
    exists list :: FragmentsListed(reader, key, list) && GivenByAll(list, fragments)
  }

  ghost predicate GivenByAll(list: seq<Json>, fragments: seq<Mention>) {
    |fragments| == |list| && forall k :: 0 <= k < |list| ==> FragmentGives(list[k], fragments[k])
  }

  /** The sources of `new_sources`. */
  ghost predicate SourcesGiven(key: Option<Json>, sources: seq<Mention>) {
    if ReadsEmpty(key) then sources == []
    else
      && key.value.JObject? && |sources| == |key.value.fields|
      && forall k :: 0 <= k < |sources| ==>
           key.value.fields[k].1.JString? && sources[k] == Mention(key.value.fields[k].0, Some(key.value.fields[k].1.s))
  }

  /** What a message mentions: the ids, then the fragments, then the sources. */
  ghost predicate Mentions(reader: Reader, p: Payload, all: seq<Mention>) {
    exists ids, fragments, sources :: Parts(reader, p, ids, fragments, sources) && all == ids + fragments + sources
  }

  ghost predicate Parts(reader: Reader, p: Payload, ids: seq<Mention>, fragments: seq<Mention>, sources: seq<Mention>) {
    && IdsGiven(reader, p.modifiedNodes, ids)
    && FragmentsGiven(reader, p.modifiedFragments, fragments)
    && SourcesGiven(p.newSources, sources)
  }

  // ------------------------------------------------------------ what is made of the mentions

  function RecordMention(c: Collected, m: Mention): Collected {
    Record(c, m.id, m.source)
  }

  function RecordAll(c: Collected, all: seq<Mention>): Collected {
    Fold(RecordMention, c, all)
  }

  lemma RecordFirst(c: Collected, m: Mention, rest: seq<Mention>)
    ensures RecordAll(c, [m] + rest) == RecordAll(Record(c, m.id, m.source), rest)
  {
    FoldConcat(RecordMention, c, [m], rest);
    assert Fold(RecordMention, c, [m][..0]) == c;
  }

  function MentionedId(m: Mention): string {
    m.id
  }

  function HasSource(): Mention -> bool {
    (m: Mention) => m.source.Some?
  }

  /** Mention `i` gives a source for an id, and no later one does. */
  ghost predicate LastSourceAt(all: seq<Mention>, i: int, id: string, source: string) {
    0 <= i < |all| && all[i] == Mention(id, Some(source)) &&
    forall j :: i < j < |all| ==> !(all[j].id == id && all[j].source.Some?)
  }

  ghost predicate LastSource(all: seq<Mention>, id: string, source: string) {
    exists i :: LastSourceAt(all, i, id, source)
  }

  lemma LastSourceOneMore(all: seq<Mention>, m: Mention, id: string, source: string)
    ensures LastSource(all + [m], id, source) <==>
      if m.id == id && m.source.Some? then m.source == Some(source) else LastSource(all, id, source)
  {
    var more := all + [m];
    assert more[|all|] == m;
    if i :| LastSourceAt(all, i, id, source) {
      if !(m.id == id && m.source.Some?) {
        assert LastSourceAt(more, i, id, source);
      }
    }
    if m == Mention(id, Some(source)) {
      assert LastSourceAt(more, |all|, id, source);
    }
    if i :| LastSourceAt(more, i, id, source) {
      if i < |all| {
        forall j | i < j < |all| ensures !(all[j].id == id && all[j].source.Some?) {
          assert more[j] == all[j];
        }
        assert LastSourceAt(all, i, id, source);
      }
    }
  }

  /** Ids are kept in the order in which they are first mentioned, and of several sources for an id
      the last one wins. */
  ghost predicate Collects(all: seq<Mention>, modified: seq<string>, sources: Dict<string>) {
    && modified == Dedup(Map(MentionedId, all))
    && KeysOf(sources) == Dedup(Map(MentionedId, Filter(all, HasSource())))
    && forall id, source :: Lookup(sources, id) == Some(source) <==> LastSource(all, id, source)
  }

  lemma CollectsOneMore(all: seq<Mention>, m: Mention, c: Collected)
    requires Collects(all, c.modified, c.sources)
    ensures Collects(all + [m], Record(c, m.id, m.source).modified, Record(c, m.id, m.source).sources)
  {
    var next := Record(c, m.id, m.source);
    MapAppend(MentionedId, all, m);
    DedupOneMore(Map(MentionedId, all), m.id);
    FilterOneMore(all, m, HasSource());
    var kept := Filter(all, HasSource());
    if m.source.Some? {
      KeysOfPut(c.sources, m.id, m.source.value);
      MapAppend(MentionedId, kept, m);
      DedupOneMore(Map(MentionedId, kept), m.id);
    } else {
      assert kept + [] == kept;
    }
    forall id, source ensures Lookup(next.sources, id) == Some(source) <==> LastSource(all + [m], id, source) {
      LastSourceOneMore(all, m, id, source);
      if m.source.Some? {
        LookupPut(c.sources, m.id, m.source.value, id);
      }
    }
  }

  lemma DedupOneMore(s: seq<string>, x: string)
    ensures Dedup(s + [x]) == if x in Dedup(s) then Dedup(s) else Dedup(s) + [x]
  {
    assert (s + [x])[..|s|] == s;
  }

  lemma {:induction false} RecordAllCollects(all: seq<Mention>)
    ensures Collects(all, RecordAll(Collected([], []), all).modified, RecordAll(Collected([], []), all).sources)
  {
    if all == [] {
      NothingCollected();
    } else {
      var n := |all| - 1;
      RecordAllCollects(all[..n]);
      assert all == all[..n] + [all[n]];
      CollectsOneMore(all[..n], all[n], RecordAll(Collected([], []), all[..n]));
    }
  }

  lemma NothingCollected()
    ensures Collects([], [], [])
  {
    assert KeysOf<string>([]) == [];
  }

  // ------------------------------------------------------------ the three loops

  lemma {:induction false} IdsRecorded(reader: Reader, c: Collected, items: seq<Json>, ids: seq<Mention>)
    requires |ids| == |items| && forall k :: 0 <= k < |ids| ==> ids[k] == Mention(reader.text(items[k]), None)
    ensures RecordIds(reader, c, items) == RecordAll(c, ids)
    decreases |items|
  {
    if items != [] {
      IdsRecorded(reader, Record(c, reader.text(items[0]), None), items[1..], ids[1..]);
      assert ids == [ids[0]] + ids[1..];
      RecordFirst(c, ids[0], ids[1..]);
    }
  }

  lemma FragmentReads(fragment: Json, index: nat, m: Mention)
    requires FragmentGives(fragment, m)
    ensures FragmentId(fragment, index) == Ok(m.id) && FragmentSource(fragment, index) == Ok(m.source)
  {
  }

  lemma FragmentAccepted(fragment: Json, index: nat) returns (m: Mention)
    requires fragment.JObject? && FragmentId(fragment, index).Ok? && FragmentSource(fragment, index).Ok?
    ensures FragmentGives(fragment, m)
  {
    m := Mention(FragmentId(fragment, index).value, FragmentSource(fragment, index).value);
  }

  ghost predicate AllObjects(list: seq<Json>) {
    forall k :: 0 <= k < |list| ==> list[k].JObject?
  }

  lemma FragmentStep(c: Collected, list: seq<Json>, index: nat, m: Mention)
    requires index < |list| && AllObjects(list) && FragmentGives(list[index], m)
    ensures RecordFragments(c, list, index) == RecordFragments(Record(c, m.id, m.source), list, index + 1)
  {
    FragmentReads(list[index], index, m);
  }

  ghost predicate GivenFrom(list: seq<Json>, index: nat, fragments: seq<Mention>) {
    |fragments| == |list| - index && forall k :: 0 <= k < |fragments| ==> FragmentGives(list[index + k], fragments[k])
  }

  lemma GivenRest(list: seq<Json>, index: nat, fragments: seq<Mention>)
    requires index < |list| && GivenFrom(list, index, fragments)
    ensures fragments != [] && FragmentGives(list[index], fragments[0]) && GivenFrom(list, index + 1, fragments[1..])
  {
    assert FragmentGives(list[index + 0], fragments[0]);
    forall k | 0 <= k < |fragments[1..]| ensures FragmentGives(list[index + 1 + k], fragments[1..][k]) {
      assert FragmentGives(list[index + (k + 1)], fragments[k + 1]);
    }
  }

  lemma RecordedStep(c: Collected, list: seq<Json>, index: nat, m: Mention, rest: seq<Mention>)
    requires index < |list| && AllObjects(list) && FragmentGives(list[index], m)
    requires RecordFragments(Record(c, m.id, m.source), list, index + 1) == Ok(RecordAll(Record(c, m.id, m.source), rest))
    ensures RecordFragments(c, list, index) == Ok(RecordAll(c, [m] + rest))
  {
    FragmentStep(c, list, index, m);
    RecordFirst(c, m, rest);
  }

  lemma {:induction false} FragmentsRecorded(c: Collected, list: seq<Json>, index: nat, fragments: seq<Mention>)
    requires index <= |list| && AllObjects(list) && GivenFrom(list, index, fragments)
    ensures RecordFragments(c, list, index) == Ok(RecordAll(c, fragments))
    decreases |list| - index
  {
    if index < |list| {
      GivenRest(list, index, fragments);
      var m, rest := fragments[0], fragments[1..];
      FragmentsRecorded(Record(c, m.id, m.source), list, index + 1, rest);
      RecordedStep(c, list, index, m, rest);
      assert fragments == [m] + rest;
    }
  }

  lemma {:induction false} FragmentsAccepted(c: Collected, list: seq<Json>, index: nat) returns (fragments: seq<Mention>)
    requires index <= |list| && AllObjects(list)
    requires RecordFragments(c, list, index).Ok?
    ensures GivenFrom(list, index, fragments)
    decreases |list| - index
  {
    if index == |list| {
      fragments := [];
    } else {
      var m := FragmentAccepted(list[index], index);
      FragmentStep(c, list, index, m);
      var rest := FragmentsAccepted(Record(c, m.id, m.source), list, index + 1);
      fragments := [m] + rest;
      forall k | 0 <= k < |fragments| ensures FragmentGives(list[index + k], fragments[k]) {
        assert k > 0 ==> FragmentGives(list[index + 1 + (k - 1)], rest[k - 1]);
      }
    }
  }

  lemma {:induction false} SourcesRecorded(c: Collected, fields: Dict<Json>, sources: seq<Mention>)
    requires |sources| == |fields|
    requires forall k :: 0 <= k < |sources| ==>
      fields[k].1.JString? && sources[k] == Mention(fields[k].0, Some(fields[k].1.s))
    ensures RecordSources(c, fields) == Ok(RecordAll(c, sources))
    decreases |fields|
  {
    if fields != [] {
      SourcesRecorded(Record(c, fields[0].0, Some(fields[0].1.s)), fields[1..], sources[1..]);
      assert sources == [sources[0]] + sources[1..];
      RecordFirst(c, sources[0], sources[1..]);
    }
  }

  lemma {:induction false} SourcesAccepted(c: Collected, fields: Dict<Json>) returns (sources: seq<Mention>)
    requires RecordSources(c, fields).Ok?
    ensures |sources| == |fields|
    ensures forall k :: 0 <= k < |sources| ==>
      fields[k].1.JString? && sources[k] == Mention(fields[k].0, Some(fields[k].1.s))
    decreases |fields|
  {
    if fields == [] {
      sources := [];
    } else {
      var rest := SourcesAccepted(Record(c, fields[0].0, Some(fields[0].1.s)), fields[1..]);
      sources := [Mention(fields[0].0, Some(fields[0].1.s))] + rest;
    }
  }

  /** The list the decoder makes of `modified_fragments`. */
  lemma ListIs(reader: Reader, key: Option<Json>, list: seq<Json>)
    ensures FragmentList(reader, Get(key)) == Ok(list) <==>
      FragmentsListed(reader, key, list) && AllObjects(list)
  {
    if key.Some? && key.value.JString? {
      var parsed := reader.loads(key.value.s);
      if parsed.Some? && parsed.value.JArray? {
        ArrayIs(parsed.value.items, list);
      }
    } else if key.Some? && key.value.JArray? {
      ArrayIs(key.value.items, list);
    }
  }

  lemma ArrayIs(items: seq<Json>, list: seq<Json>)
    ensures ArrayFragments(items) == Ok(list) <==> list == items && AllObjects(items)
  {
  }

  lemma IdsAre(reader: Reader, key: Option<Json>, ids: seq<Mention>)
    requires IdsGiven(reader, key, ids)
    ensures ArrayOrEmpty(Get(key)).Some?
    ensures RecordIds(reader, Collected([], []), ArrayOrEmpty(Get(key)).value) == RecordAll(Collected([], []), ids)
  {
    TruthyIs(Get(key));
    IdsRecorded(reader, Collected([], []), ArrayOrEmpty(Get(key)).value, ids);
  }

  lemma SourcesAre(c: Collected, key: Option<Json>, sources: seq<Mention>)
    requires SourcesGiven(key, sources)
    ensures ObjectOrEmpty(Get(key)).Some?
    ensures RecordSources(c, ObjectOrEmpty(Get(key)).value) == Ok(RecordAll(c, sources))
  {
    TruthyIs(Get(key));
    SourcesRecorded(c, ObjectOrEmpty(Get(key)).value, sources);
  }

  lemma FragmentsAre(reader: Reader, c: Collected, key: Option<Json>, fragments: seq<Mention>)
    requires FragmentsGiven(reader, key, fragments)
    ensures FragmentList(reader, Get(key)).Ok?
    ensures AllObjects(FragmentList(reader, Get(key)).value)
    ensures RecordFragments(c, FragmentList(reader, Get(key)).value, 0) == Ok(RecordAll(c, fragments))
  {
    var list :| FragmentsListed(reader, key, list) && GivenByAll(list, fragments);
    ListIs(reader, key, list);
    forall k | 0 <= k < |fragments| ensures FragmentGives(list[0 + k], fragments[k]) {
    }
    FragmentsRecorded(c, list, 0, fragments);
  }

  lemma InThreeParts(a: seq<Mention>, b: seq<Mention>, d: seq<Mention>)
    ensures RecordAll(RecordAll(RecordAll(Collected([], []), a), b), d) == RecordAll(Collected([], []), a + b + d)
  {
    var start := Collected([], []);
    FoldConcat(RecordMention, start, a, b);
    FoldConcat(RecordMention, start, a + b, d);
  }

  lemma PartsCollected(reader: Reader, p: Payload, ids: seq<Mention>, fragments: seq<Mention>, sources: seq<Mention>)
    requires Parts(reader, p, ids, fragments, sources)
    ensures Collect(reader, p) == Ok(RecordAll(Collected([], []), ids + fragments + sources))
  {
    var named := RecordAll(Collected([], []), ids);
    IdsAre(reader, p.modifiedNodes, ids);
    FragmentsAre(reader, named, p.modifiedFragments, fragments);
    SourcesAre(RecordAll(named, fragments), p.newSources, sources);
    InThreeParts(ids, fragments, sources);
  }

  lemma AcceptedParts(reader: Reader, p: Payload) returns (ids: seq<Mention>, fragments: seq<Mention>, sources: seq<Mention>)
    requires Collect(reader, p).Ok?
    ensures Parts(reader, p, ids, fragments, sources)
  {
    TruthyIs(Get(p.modifiedNodes));
    TruthyIs(Get(p.newSources));
    var items := ArrayOrEmpty(Get(p.modifiedNodes)).value;
    ids := seq(|items|, k requires 0 <= k < |items| => Mention(reader.text(items[k]), None));
    FragmentsAreObjects(reader, Get(p.modifiedFragments));
    var list := FragmentList(reader, Get(p.modifiedFragments)).value;
    ListIs(reader, p.modifiedFragments, list);
    var start := RecordIds(reader, Collected([], []), items);
    fragments := FragmentsAccepted(start, list, 0);
    forall k | 0 <= k < |list| ensures FragmentGives(list[k], fragments[k]) {
      assert FragmentGives(list[0 + k], fragments[k]);
    }
    sources := SourcesAccepted(RecordFragments(start, list, 0).value, ObjectOrEmpty(Get(p.newSources)).value);
  }

  /** Ids and sources are collected exactly when every part of the message has its shape. */
  lemma CollectedExactly(reader: Reader, p: Payload)
    ensures Collect(reader, p).Ok? <==> exists all :: Mentions(reader, p, all)
    ensures forall all :: Mentions(reader, p, all) ==>
      Collect(reader, p).Ok? && Collects(all, Collect(reader, p).value.modified, Collect(reader, p).value.sources)
  {
    forall all | Mentions(reader, p, all)
      ensures Collect(reader, p).Ok? && Collects(all, Collect(reader, p).value.modified, Collect(reader, p).value.sources)
    {
      var ids, fragments, sources :| Parts(reader, p, ids, fragments, sources) && all == ids + fragments + sources;
      PartsCollected(reader, p, ids, fragments, sources);
      RecordAllCollects(all);
    }
    if Collect(reader, p).Ok? {
      var ids, fragments, sources := AcceptedParts(reader, p);
      assert Mentions(reader, p, ids + fragments + sources);
    }
  }

  // ------------------------------------------------------------ what is wrong with a message

  ghost predicate NodesFault(p: Payload) {
    p.modifiedNodes.Some? && IsTrue(p.modifiedNodes.value) && !p.modifiedNodes.value.JArray?
  }

  ghost predicate FirstNonObjectAt(list: seq<Json>, i: nat) {
    i < |list| && !list[i].JObject? && forall k :: 0 <= k < i ==> list[k].JObject?
  }

  ghost predicate HasId(fragment: Json) {
    fragment.JObject? && exists id :: id != "" && Lookup(fragment.fields, "node_id") == Some(JString(id))
  }

  ghost predicate Gives(fragment: Json) {
    exists m :: FragmentGives(fragment, m)
  }

  /** Fragment `i` is the first of an array of objects that cannot be used; it has no id, or it has
      one and a source that is not a string. */
  ghost predicate FirstUseless(list: seq<Json>, i: nat, named: bool) {
    && i < |list| && AllObjects(list)
    && (forall k :: 0 <= k < i ==> Gives(list[k]))
    && !Gives(list[i]) && (HasId(list[i]) <==> named)
  }

  ghost predicate AllGive(reader: Reader, p: Payload) {
    exists fragments :: FragmentsGiven(reader, p.modifiedFragments, fragments)
  }

  ghost predicate SourcesFault(key: Option<Json>) {
    key.Some? && IsTrue(key.value) && !key.value.JObject?
  }

  /** The first source that is not a string is under `name`. */
  ghost predicate FirstNonString(key: Option<Json>, name: string) {
    key.Some? && key.value.JObject? && exists i :: NonStringAt(key.value.fields, i, name)
  }

  ghost predicate NonStringAt(fields: Dict<Json>, i: int, name: string) {
    0 <= i < |fields| && fields[i].0 == name && !fields[i].1.JString? && forall k :: 0 <= k < i ==> fields[k].1.JString?
  }

  /** What a message is refused for: the ids, then the fragments and their places, then the sources. */
  ghost predicate Faulty(reader: Reader, p: Payload, c: Complaint) {
    match c
    case ModifiedNodesNotArray => NodesFault(p)
    case FragmentsNotArray => !NodesFault(p) && !exists list :: FragmentsListed(reader, p.modifiedFragments, list)
    case FragmentNotObject(i) =>
      !NodesFault(p) && exists list :: FragmentsListed(reader, p.modifiedFragments, list) && FirstNonObjectAt(list, i)
    case FragmentWithoutId(i) =>
      !NodesFault(p) && exists list :: FragmentsListed(reader, p.modifiedFragments, list) && FirstUseless(list, i, false)
    case FragmentSourceNotString(i) =>
      !NodesFault(p) && exists list :: FragmentsListed(reader, p.modifiedFragments, list) && FirstUseless(list, i, true)
    case SourcesNotObject => !NodesFault(p) && AllGive(reader, p) && SourcesFault(p.newSources)
    case SourceNotString(name) => !NodesFault(p) && AllGive(reader, p) && FirstNonString(p.newSources, name)
    case _ => false
  }

  lemma ListedFault(reader: Reader, key: Option<Json>)
    ensures FragmentList(reader, Get(key)).Err? ==>
      var c := FragmentList(reader, Get(key)).error.complaint;
      || (c == FragmentsNotArray && !exists list :: FragmentsListed(reader, key, list))
      || (c.FragmentNotObject? && exists list :: FragmentsListed(reader, key, list) && FirstNonObjectAt(list, c.index))
  {
    if FragmentList(reader, Get(key)).Err? {
      if key.value.JArray? {
        assert FragmentsListed(reader, key, key.value.items) && FirstNonObjectAt(key.value.items, FirstNonObject(key.value.items));
      } else if key.value.JString? {
        var parsed := reader.loads(key.value.s);
        if parsed.Some? && parsed.value.JArray? {
          var items := parsed.value.items;
          assert FragmentsListed(reader, key, items) && FirstNonObjectAt(items, FirstNonObject(items));
        }
      }
    }
  }

  lemma UselessFragment(fragment: Json, index: nat)
    requires fragment.JObject?
    ensures Gives(fragment) <==> FragmentId(fragment, index).Ok? && FragmentSource(fragment, index).Ok?
    ensures HasId(fragment) <==> FragmentId(fragment, index).Ok?
    ensures FragmentId(fragment, index).Err? ==> FragmentId(fragment, index) == Complain(FragmentWithoutId(index))
    ensures FragmentSource(fragment, index).Err? ==> FragmentSource(fragment, index) == Complain(FragmentSourceNotString(index))
  {
    if FragmentId(fragment, index).Ok? && FragmentSource(fragment, index).Ok? {
      var m := FragmentAccepted(fragment, index);
    }
    if m :| FragmentGives(fragment, m) {
      FragmentReads(fragment, index, m);
    }
  }

  ghost predicate UselessComplaint(list: seq<Json>, c: Complaint) {
    || (c.FragmentWithoutId? && FirstUseless(list, c.index, false))
    || (c.FragmentSourceNotString? && FirstUseless(list, c.index, true))
  }

  /** The first fragment that is read is the first that is useless. */
  lemma FaultHere(c: Collected, list: seq<Json>, index: nat)
    requires index < |list| && AllObjects(list) && (forall k :: 0 <= k < index ==> Gives(list[k])) && !Gives(list[index])
    ensures RecordFragments(c, list, index).Err? && UselessComplaint(list, RecordFragments(c, list, index).error.complaint)
  {
    UselessFragment(list[index], index);
    assert FirstUseless(list, index, HasId(list[index]));
  }

  lemma {:induction false} RecordedFault(c: Collected, list: seq<Json>, index: nat)
    requires index <= |list| && AllObjects(list) && (forall k :: 0 <= k < index ==> Gives(list[k]))
    ensures RecordFragments(c, list, index).Err? ==> UselessComplaint(list, RecordFragments(c, list, index).error.complaint)
    decreases |list| - index
  {
    if index < |list| {
      if m :| FragmentGives(list[index], m) {
        assert Gives(list[index]);
        FragmentStep(c, list, index, m);
        RecordedFault(Record(c, m.id, m.source), list, index + 1);
      } else {
        FaultHere(c, list, index);
      }
    }
  }

  lemma NonStringLater(fields: Dict<Json>, i: int, name: string)
    requires fields != [] && fields[0].1.JString? && NonStringAt(fields[1..], i, name)
    ensures NonStringAt(fields, i + 1, name)
  {
    forall k | 0 <= k < i + 1 ensures fields[k].1.JString? {
      assert k > 0 ==> fields[k] == fields[1..][k - 1];
    }
  }

  lemma {:induction false} SourcesAt(c: Collected, fields: Dict<Json>) returns (i: int)
    requires RecordSources(c, fields).Err?
    ensures RecordSources(c, fields).error.complaint.SourceNotString?
    ensures NonStringAt(fields, i, RecordSources(c, fields).error.complaint.key)
    decreases |fields|
  {
    if !fields[0].1.JString? {
      i := 0;
    } else {
      var next := Record(c, fields[0].0, Some(fields[0].1.s));
      i := SourcesAt(next, fields[1..]);
      NonStringLater(fields, i, RecordSources(next, fields[1..]).error.complaint.key);
      i := i + 1;
    }
  }

  lemma GivenList(reader: Reader, p: Payload, list: seq<Json>, fragments: seq<Mention>)
    requires FragmentList(reader, Get(p.modifiedFragments)) == Ok(list) && GivenFrom(list, 0, fragments) && AllObjects(list)
    ensures AllGive(reader, p)
  {
    ListIs(reader, p.modifiedFragments, list);
    forall k | 0 <= k < |list| ensures FragmentGives(list[k], fragments[k]) {
      assert FragmentGives(list[0 + k], fragments[k]);
    }
    assert FragmentsGiven(reader, p.modifiedFragments, fragments);
  }

  lemma CollectFault(reader: Reader, p: Payload)
    requires Collect(reader, p).Err?
    ensures Faulty(reader, p, Collect(reader, p).error.complaint)
  {
    TruthyIs(Get(p.modifiedNodes));
    TruthyIs(Get(p.newSources));
    ListedFault(reader, p.modifiedFragments);
    FragmentsAreObjects(reader, Get(p.modifiedFragments));
    var ids := ArrayOrEmpty(Get(p.modifiedNodes));
    var listed := FragmentList(reader, Get(p.modifiedFragments));
    if ids.Some? && listed.Ok? {
      var start := RecordIds(reader, Collected([], []), ids.value);
      ListIs(reader, p.modifiedFragments, listed.value);
      RecordedFault(start, listed.value, 0);
      var recorded := RecordFragments(start, listed.value, 0);
      if recorded.Ok? {
        var fragments := FragmentsAccepted(start, listed.value, 0);
        GivenList(reader, p, listed.value, fragments);
        var sources := ObjectOrEmpty(Get(p.newSources));
        if sources.Some? {
          var i := SourcesAt(recorded.value, sources.value);
        }
      }
    }
  }

  /** A key lists at most one array of fragments. */
  lemma ListedOnce(reader: Reader, key: Option<Json>, a: seq<Json>, b: seq<Json>)
    requires FragmentsListed(reader, key, a) && FragmentsListed(reader, key, b)
    ensures a == b
  {
  }

  lemma GivenMeansGives(reader: Reader, p: Payload, list: seq<Json>)
    requires AllGive(reader, p) && FragmentsListed(reader, p.modifiedFragments, list)
    ensures forall k :: 0 <= k < |list| ==> list[k].JObject? && Gives(list[k])
  {
    var fragments :| FragmentsGiven(reader, p.modifiedFragments, fragments);
    var other :| FragmentsListed(reader, p.modifiedFragments, other) && GivenByAll(other, fragments);
    ListedOnce(reader, p.modifiedFragments, list, other);
  }

  /** A message has at most one such fault. */
  lemma OneFault(reader: Reader, p: Payload, a: Complaint, b: Complaint)
    requires Faulty(reader, p, a) && Faulty(reader, p, b)
    ensures a == b
  {
    if list :| FragmentsListed(reader, p.modifiedFragments, list) {
      forall other | FragmentsListed(reader, p.modifiedFragments, other) ensures other == list {
        ListedOnce(reader, p.modifiedFragments, list, other);
      }
      if AllGive(reader, p) {
        GivenMeansGives(reader, p, list);
      }
    }
    if AllGive(reader, p) {
      var fragments :| FragmentsGiven(reader, p.modifiedFragments, fragments);
      assert exists list :: FragmentsListed(reader, p.modifiedFragments, list);
    }
  }

  lemma MentionsFaultless(reader: Reader, p: Payload, all: seq<Mention>)
    requires Mentions(reader, p, all)
    ensures !NodesFault(p) && AllGive(reader, p) && !SourcesFault(p.newSources)
    ensures forall name :: !FirstNonString(p.newSources, name)
  {
    var ids, fragments, sources :| Parts(reader, p, ids, fragments, sources) && all == ids + fragments + sources;
  }

  lemma NoFault(reader: Reader, p: Payload, c: Complaint)
    requires !NodesFault(p) && AllGive(reader, p) && !SourcesFault(p.newSources)
    requires forall name :: !FirstNonString(p.newSources, name)
    ensures !Faulty(reader, p, c)
  {
    var fragments :| FragmentsGiven(reader, p.modifiedFragments, fragments);
    var list :| FragmentsListed(reader, p.modifiedFragments, list) && GivenByAll(list, fragments);
    GivenMeansGives(reader, p, list);
    forall other | FragmentsListed(reader, p.modifiedFragments, other) ensures other == list {
      ListedOnce(reader, p.modifiedFragments, list, other);
    }
  }

  lemma FaultyIsRefused(reader: Reader, p: Payload, c: Complaint)
    requires Faulty(reader, p, c)
    ensures Collect(reader, p).Err?
  {
    if Collect(reader, p).Ok? {
      CollectedExactly(reader, p);
      var all :| Mentions(reader, p, all);
      MentionsFaultless(reader, p, all);
      NoFault(reader, p, c);
    }
  }

  /** The complaint about ids, fragments and sources is the first that applies. */
  lemma ComplaintExactly(reader: Reader, p: Payload, c: Complaint)
    ensures Collect(reader, p).Err? && Collect(reader, p).error.complaint == c <==> Faulty(reader, p, c)
  {
    if Collect(reader, p).Err? {
      CollectFault(reader, p);
    }
    if Faulty(reader, p, c) {
      FaultyIsRefused(reader, p, c);
      OneFault(reader, p, c, Collect(reader, p).error.complaint);
    }
  }

  // ------------------------------------------------------------ usage

  /** The last integer under a key. */
  ghost predicate LastInt(fields: Dict<Json>, key: string, n: int) {
    exists i :: 0 <= i < |fields| && fields[i] == (key, JInt(n)) &&
      forall j :: i < j < |fields| ==> !(fields[j].0 == key && fields[j].1.JInt?)
  }

  /** The integers of `usage`, and of nothing else. */
  ghost predicate UsageIs(key: Option<Json>, usage: Dict<int>) {
    if key.None? || !key.value.JObject? then usage == []
    else DistinctKeys(usage) && forall name, n :: Lookup(usage, name) == Some(n) <==> LastInt(key.value.fields, name, n)
  }

  lemma {:induction false} UsageFromIs(done: Dict<int>, fields: Dict<Json>, name: string, n: int)
    ensures Lookup(UsageFrom(done, fields), name) == Some(n) <==>
      LastInt(fields, name, n) || (Lookup(done, name) == Some(n) && NoInt(fields, name))
    decreases |fields|
  {
    if fields != [] {
      var (key, value) := fields[0];
      var next := if value.JInt? then Put(done, key, value.n) else done;
      UsageFromIs(next, fields[1..], name, n);
      if value.JInt? {
        LookupPut(done, key, value.n, name);
      }
      LastIntFirst(fields, name, n);
      LastIntIsInt(fields[1..], name);
    }
  }

  ghost predicate NoInt(fields: Dict<Json>, name: string) {
    forall i :: 0 <= i < |fields| ==> !(fields[i].0 == name && fields[i].1.JInt?)
  }

  lemma LastIntFirst(fields: Dict<Json>, name: string, n: int)
    requires fields != []
    ensures LastInt(fields, name, n) <==>
      LastInt(fields[1..], name, n) || (fields[0] == (name, JInt(n)) && NoInt(fields[1..], name))
  {
    var rest := fields[1..];
    if i :| 0 <= i < |rest| && rest[i] == (name, JInt(n)) && forall j :: i < j < |rest| ==> !(rest[j].0 == name && rest[j].1.JInt?) {
      assert fields[i + 1] == rest[i];
      forall j | i + 1 < j < |fields| ensures !(fields[j].0 == name && fields[j].1.JInt?) {
        assert fields[j] == rest[j - 1];
      }
    }
    if i :| 0 <= i < |fields| && fields[i] == (name, JInt(n)) && forall j :: i < j < |fields| ==> !(fields[j].0 == name && fields[j].1.JInt?) {
      forall j | 0 <= j < |rest| ensures rest[j] == fields[j + 1] {
      }
      assert i > 0 ==> rest[i - 1] == (name, JInt(n));
    }
  }

  lemma LastIntIsInt(fields: Dict<Json>, name: string)
    ensures forall n :: LastInt(fields, name, n) ==> !NoInt(fields, name)
  {
  }

  lemma DecodedUsage(key: Option<Json>)
    ensures UsageIs(key, DecodeUsage(Get(key)))
  {
    if key.Some? && key.value.JObject? {
      var fields := key.value.fields;
      UsageNormal([], fields);
      forall name, n ensures Lookup(UsageFrom([], fields), name) == Some(n) <==> LastInt(fields, name, n) {
        UsageFromIs([], fields, name, n);
      }
    }
  }

  // ------------------------------------------------------------ main results

  /** A version is refused when it is given, is not null, and is not this one. */
  ghost predicate OtherVersion(p: Payload) {
    p.protocolVersion.Some? && p.protocolVersion.value != JNull && p.protocolVersion.value != JString("1.0")
  }

  /** A flag that is absent has its default. */
  ghost predicate FlagIs(key: Option<Json>, default: bool, flag: bool) {
    flag <==> if key == None then default else IsTrue(key.value)
  }

  /** A value that is absent is null. */
  ghost predicate ValueIs(key: Option<Json>, value: Json) {
    value == if key == None then JNull else key.value
  }

  ghost predicate RepairsAre(key: Option<Json>, repairs: int) {
    if key.Some? && key.value.JInt? && key.value.n >= 0 then repairs == key.value.n else repairs == 0
  }

  /** Every field of the result, by its key. */
  ghost predicate ResultIs(reader: Reader, p: Payload, r: TaskResult) {
    && p.taskId.Some? && r.taskId == reader.text(p.taskId.value)
    && p.success.Some? && (r.success <==> IsTrue(p.success.value))
    && (exists all :: Mentions(reader, p, all) && Collects(all, r.modifiedNodes, r.newSources))
    && ValueIs(p.error, r.error) && ValueIs(p.stopReason, r.stopReason)
    && FlagIs(p.noChangesRequired, false, r.noChangesRequired) && FlagIs(p.retryable, true, r.retryable)
    && UsageIs(p.usage, r.usage) && RepairsAre(p.repairs, r.repairs) && r.errorKind == None
  }

  lemma BodyExactly(reader: Reader, p: Payload)
    ensures DecodeBody(reader, p).Ok? <==> Collect(reader, p).Ok? && p.taskId.Some? && p.success.Some?
    ensures DecodeBody(reader, p).Ok? ==> ResultIs(reader, p, DecodeBody(reader, p).value)
  {
    CollectedExactly(reader, p);
    DecodedUsage(p.usage);
    if DecodeBody(reader, p).Ok? {
      TruthyIs(p.success.value);
      TruthyIs(Get(p.noChangesRequired));
      TruthyIs(Get(p.retryable));
      var all :| Mentions(reader, p, all);
      assert Collects(all, Collect(reader, p).value.modified, Collect(reader, p).value.sources);
    }
  }

  /** A message is accepted exactly when its version is not another one, it has a task id and a
      success, and its ids, fragments and sources have their shapes; every field of the result is
      then what its key says, or the default when the key is absent. */
  lemma DecodedExactly(reader: Reader, p: Payload)
    ensures Decode(reader, Object(p)).Ok? <==>
      !OtherVersion(p) && p.taskId.Some? && p.success.Some? && exists all :: Mentions(reader, p, all)
    ensures Decode(reader, Object(p)).Ok? ==> ResultIs(reader, p, Decode(reader, Object(p)).value)
  {
    BodyExactly(reader, p);
    CollectedExactly(reader, p);
  }

  /** The provider's telemetry on a rejected message. */
  ghost predicate TelemetryIs(p: Payload, error: ProtocolError) {
    && (forall s :: error.stopReason == Some(s) <==> p.stopReason == Some(JString(s)))
    && UsageIs(p.usage, error.usage)
  }

  /** Why a message is refused: no JSON, no object, another version, then the first fault of its
      ids, fragments and sources, then the first of the two required keys that is missing. All but
      the first three keep the provider's telemetry. */
  lemma RefusedExactly(reader: Reader, p: Payload)
    ensures Decode(reader, NotJson) == Complain(InvalidJson) && Decode(reader, NotObject) == Complain(ResultNotObject)
    ensures OtherVersion(p) ==> Decode(reader, Object(p)) == Complain(UnsupportedVersion)
    ensures !OtherVersion(p) && Decode(reader, Object(p)).Err? ==>
      var error := Decode(reader, Object(p)).error;
      && TelemetryIs(p, error)
      && (Faulty(reader, p, error.complaint) || (
            && (forall c :: !Faulty(reader, p, c))
            && error.complaint == if p.taskId == None then MissingField("task_id") else MissingField("success")))
  {
    BodyExactly(reader, p);
    DecodedUsage(p.usage);
    forall c ensures Collect(reader, p).Err? && Collect(reader, p).error.complaint == c <==> Faulty(reader, p, c) {
      ComplaintExactly(reader, p, c);
    }
  }

  /** Encoding states the protocol version, sends the sources as a mapping, and loses nothing: two
      results that are encoded alike are the same result. */
  lemma EncodedExactly(r: TaskResult, other: TaskResult)
    ensures Encode(r).Object? && Encode(r).payload.protocolVersion == Some(JString("1.0"))
    ensures Encode(r).payload.modifiedFragments == None
    ensures Encode(r) == Encode(other) <==> r == other
  {
    if Encode(r) == Encode(other) {
      forall i | 0 <= i < |r.modifiedNodes| ensures r.modifiedNodes[i] == other.modifiedNodes[i] {
        assert Strings(r.modifiedNodes)[i] == Strings(other.modifiedNodes)[i];
      }
      forall i | 0 <= i < |r.newSources| ensures r.newSources[i] == other.newSources[i] {
        assert StringFields(r.newSources)[i] == StringFields(other.newSources)[i];
      }
      forall i | 0 <= i < |r.usage| ensures r.usage[i] == other.usage[i] {
        assert IntFields(r.usage)[i] == IntFields(other.usage)[i];
      }
      assert r.modifiedNodes == other.modifiedNodes;
      assert r.newSources == other.newSources;
      assert r.usage == other.usage;
    }
  }
}
