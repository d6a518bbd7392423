/** Agent results on the wire: encoding, and the normalising decoder.

    JSON text is not modelled: a wire message is a JSON value, and `Reader` stands for the two
    library calls the decoder makes on values it cannot interpret itself. */
module ResultCodec {
  import opened Options
  import opened OrderedDicts
  import opened Sequences

  datatype Outcome<+T> = Ok(value: T) | Err(error: ProtocolError)

  // ------------------------------------------------------------ JSON values and messages

  datatype Json =
    | JNull
    | JBool(b: bool)
    | JInt(n: int)
    | JFloat(r: real)
    | JString(s: string)
    | JArray(items: seq<Json>)
    | JObject(fields: Dict<Json>)

  predicate Truthy(j: Json) {
    match j
    case JNull => false
    case JBool(b) => b
    case JInt(n) => n != 0
    case JFloat(r) => r != 0.0
    case JString(s) => s != ""
    case JArray(items) => items != []
    case JObject(fields) => fields != []
  }

  /** The keys of a result object the decoder reads; `None` is an absent key. */
  datatype Payload = Payload(
    protocolVersion: Option<Json>, taskId: Option<Json>, success: Option<Json>,
    modifiedNodes: Option<Json>, modifiedFragments: Option<Json>, newSources: Option<Json>,
    error: Option<Json>, noChangesRequired: Option<Json>, stopReason: Option<Json>,
    usage: Option<Json>, retryable: Option<Json>, errorKind: Option<Json>, repairs: Option<Json>)

  datatype Wire = NotJson | NotObject | Object(payload: Payload)

  datatype TaskResult = TaskResult(
    taskId: string, success: bool, modifiedNodes: seq<string>, newSources: Dict<string>,
    error: Json, noChangesRequired: bool, stopReason: Json, usage: Dict<int>,
    retryable: bool, errorKind: Option<string>, repairs: int)

  datatype Complaint =
    | InvalidJson
    | ResultNotObject
    | UnsupportedVersion
    | ModifiedNodesNotArray
    | FragmentsNotArray
    | FragmentNotObject(index: nat)
    | FragmentWithoutId(index: nat)
    | FragmentSourceNotString(index: nat)
    | SourcesNotObject
    | SourceNotString(key: string)
    | MissingField(name: string)

  /** A rejected message keeps the provider's telemetry. */
  datatype ProtocolError = ProtocolError(complaint: Complaint, stopReason: Option<string>, usage: Dict<int>)

  function Complain<T>(complaint: Complaint): Outcome<T> {
    Err(ProtocolError(complaint, None, []))
  }

  /** `str(value)` and `json.loads(text)`. */
  datatype Reader = Reader(text: Json -> string, loads: string -> Option<Json>)

  /** `str` of a string is the string. */
  ghost predicate ReadsStrings(reader: Reader) {
    forall s :: reader.text(JString(s)) == s
  }

  // ------------------------------------------------------------ encoding

  function Strings(items: seq<string>): (r: seq<Json>)
    ensures |r| == |items| && forall i :: 0 <= i < |r| ==> r[i] == JString(items[i])
  {
    seq(|items|, i requires 0 <= i < |items| => JString(items[i]))
  }

  function StringFields(d: Dict<string>): (r: Dict<Json>)
    ensures |r| == |d| && forall i :: 0 <= i < |r| ==> r[i] == (d[i].0, JString(d[i].1))
  {
    seq(|d|, i requires 0 <= i < |d| => (d[i].0, JString(d[i].1)))
  }

  function IntFields(d: Dict<int>): (r: Dict<Json>)
    ensures |r| == |d| && forall i :: 0 <= i < |r| ==> r[i] == (d[i].0, JInt(d[i].1))
  {
    seq(|d|, i requires 0 <= i < |d| => (d[i].0, JInt(d[i].1)))
  }

  const PROTOCOL_VERSION := JString("1.0")

  function Encode(r: TaskResult): Wire {
    Object(Payload(
      Some(PROTOCOL_VERSION), Some(JString(r.taskId)), Some(JBool(r.success)),
      Some(JArray(Strings(r.modifiedNodes))), None, Some(JObject(StringFields(r.newSources))),
      Some(r.error), Some(JBool(r.noChangesRequired)), Some(r.stopReason),
      Some(JObject(IntFields(r.usage))), Some(JBool(r.retryable)),
      Some(if r.errorKind.Some? then JString(r.errorKind.value) else JNull), Some(JInt(r.repairs))))
  }

  // ------------------------------------------------------------ decoding

  /** `data.get(key)`: an absent key reads as null. */
  function Get(field: Option<Json>): Json {
    if field.Some? then field.value else JNull
  }

  /** `data.get(key, default)` read as a truth value. */
  function Flag(field: Option<Json>, default: bool): bool {
    if field.Some? then Truthy(field.value) else default
  }

  function DecodeUsage(raw: Json): Dict<int> {
    if raw.JObject? then UsageFrom([], raw.fields) else []
  }

  /** Keep the integers; a boolean or a float is not one. */
  function UsageFrom(done: Dict<int>, fields: Dict<Json>): Dict<int>
    decreases |fields|
  {
    if fields == [] then done
    else if fields[0].1.JInt? then UsageFrom(Put(done, fields[0].0, fields[0].1.n), fields[1..])
    else UsageFrom(done, fields[1..])
  }

  function DecodeRepairs(raw: Json): int {
    if raw.JInt? && raw.n >= 0 then raw.n else 0
  }

  /** The first element of an array that is not an object. */
  function FirstNonObject(items: seq<Json>): (i: nat)
    ensures i <= |items|
    ensures forall k :: 0 <= k < i ==> items[k].JObject?
    ensures i < |items| ==> !items[i].JObject?
  {
    if items == [] || !items[0].JObject? then 0 else 1 + FirstNonObject(items[1..])
  }

  function ArrayFragments(items: seq<Json>): Outcome<seq<Json>> {
    var bad := FirstNonObject(items);
    if bad < |items| then Complain(FragmentNotObject(bad)) else Ok(items)
  }

  /** An array of objects; a lone object, and either of them encoded in a string, are recovered. */
  function FragmentList(reader: Reader, raw: Json): Outcome<seq<Json>> {
    match raw
    case JNull => Ok([])
    case JString(s) =>
      var parsed := reader.loads(s);
      if parsed.None? then Complain(FragmentsNotArray)
      else (match parsed.value
            case JArray(items) => ArrayFragments(items)
            case JObject(_) => Ok([parsed.value])
            case _ => Complain(FragmentsNotArray))
    case JObject(_) => Ok([raw])
    case JArray(items) => ArrayFragments(items)
    case _ => Complain(FragmentsNotArray)
  }

  method AsFragmentList(reader: Reader, raw: Json) returns (r: Outcome<seq<Json>>)
    ensures r == FragmentList(reader, raw)
  {
    var value := raw;
    if raw.JNull? {
      return Ok([]);
    }
    if raw.JString? {
      var parsed := reader.loads(raw.s);
      if parsed.None? || !(parsed.value.JArray? || parsed.value.JObject?) {
        return Complain(FragmentsNotArray);
      }
      value := parsed.value;
    }
    if value.JObject? {
      return Ok([value]);
    }
    if !value.JArray? {
      return Complain(FragmentsNotArray);
    }
    var fragments: seq<Json> := [];
    for index := 0 to |value.items|
      invariant fragments == value.items[..index]
      invariant forall k :: 0 <= k < index ==> value.items[k].JObject?
    {
      if !value.items[index].JObject? {
        return Complain(FragmentNotObject(index));
      }
      fragments := fragments + [value.items[index]];
    }
    assert fragments == value.items;
    return Ok(fragments);
  }

  /** Node ids and sources collected so far. */
  datatype Collected = Collected(modified: seq<string>, sources: Dict<string>)

  function Record(c: Collected, id: string, source: Option<string>): Collected {
    Collected(if id in c.modified then c.modified else c.modified + [id],
              if source.Some? then Put(c.sources, id, source.value) else c.sources)
  }

  function RecordIds(reader: Reader, c: Collected, items: seq<Json>): Collected
    decreases |items|
  {
    if items == [] then c else RecordIds(reader, Record(c, reader.text(items[0]), None), items[1..])
  }

  function FragmentId(fragment: Json, index: nat): Outcome<string>
    requires fragment.JObject?
  {
    match Lookup<Json>(fragment.fields, "node_id")
    case Some(JString(s)) => if s == "" then Complain(FragmentWithoutId(index)) else Ok(s)
    case _ => Complain(FragmentWithoutId(index))
  }

  function FragmentSource(fragment: Json, index: nat): Outcome<Option<string>>
    requires fragment.JObject?
  {
    match Lookup<Json>(fragment.fields, "new_source")
    case None => Ok(None)
    case Some(JNull) => Ok(None)
    case Some(JString(s)) => Ok(Some(s))
    case _ => Complain(FragmentSourceNotString(index))
  }

  function RecordFragments(c: Collected, fragments: seq<Json>, index: nat): Outcome<Collected>
    requires index <= |fragments| && forall k :: 0 <= k < |fragments| ==> fragments[k].JObject?
    decreases |fragments| - index
  {
    if index == |fragments| then Ok(c)
    else
      var id := FragmentId(fragments[index], index);
      if id.Err? then Err(id.error)
      else
        var source := FragmentSource(fragments[index], index);
        if source.Err? then Err(source.error)
        else RecordFragments(Record(c, id.value, source.value), fragments, index + 1)
  }

  function RecordSources(c: Collected, fields: Dict<Json>): Outcome<Collected>
    decreases |fields|
  {
    if fields == [] then Ok(c)
    else if !fields[0].1.JString? then Complain(SourceNotString(fields[0].0))
    else RecordSources(Record(c, fields[0].0, Some(fields[0].1.s)), fields[1..])
  }

  /** `raw or []` and `raw or {}`: anything false reads as empty. */
  function ArrayOrEmpty(raw: Json): Option<seq<Json>> {
    if !Truthy(raw) then Some([]) else if raw.JArray? then Some(raw.items) else None
  }

  function ObjectOrEmpty(raw: Json): Option<Dict<Json>> {
    if !Truthy(raw) then Some([]) else if raw.JObject? then Some(raw.fields) else None
  }

  function Collect(reader: Reader, p: Payload): Outcome<Collected> {
    var ids := ArrayOrEmpty(Get(p.modifiedNodes));
    if ids.None? then Complain(ModifiedNodesNotArray)
    else
      var fragments := FragmentList(reader, Get(p.modifiedFragments));
      if fragments.Err? then Err(fragments.error)
      else
        FragmentsAreObjects(reader, Get(p.modifiedFragments));
        var recorded := RecordFragments(RecordIds(reader, Collected([], []), ids.value), fragments.value, 0);
        if recorded.Err? then recorded
        else
          var sources := ObjectOrEmpty(Get(p.newSources));
          if sources.None? then Complain(SourcesNotObject)
          else RecordSources(recorded.value, sources.value)
  }

  lemma FragmentsAreObjects(reader: Reader, raw: Json)
    ensures FragmentList(reader, raw).Ok? ==>
      forall k :: 0 <= k < |FragmentList(reader, raw).value| ==> FragmentList(reader, raw).value[k].JObject?
  {
  }

  function DecodeBody(reader: Reader, p: Payload): Outcome<TaskResult> {
    var collected := Collect(reader, p);
    if collected.Err? then Err(collected.error)
    else if p.taskId.None? then Complain(MissingField("task_id"))
    else if p.success.None? then Complain(MissingField("success"))
    else Ok(TaskResult(
      reader.text(p.taskId.value), Truthy(p.success.value), collected.value.modified, collected.value.sources,
      Get(p.error), Flag(p.noChangesRequired, false), Get(p.stopReason), DecodeUsage(Get(p.usage)),
      Flag(p.retryable, true), None, DecodeRepairs(Get(p.repairs))))
  }

  function Decode(reader: Reader, wire: Wire): Outcome<TaskResult> {
    match wire
    case NotJson => Complain(InvalidJson)
    case NotObject => Complain(ResultNotObject)
    case Object(p) =>
      if Get(p.protocolVersion) != JNull && Get(p.protocolVersion) != PROTOCOL_VERSION then Complain(UnsupportedVersion)
      else
        var body := DecodeBody(reader, p);
        if body.Ok? then body
        else Err(ProtocolError(body.error.complaint,
                               if Get(p.stopReason).JString? then Some(Get(p.stopReason).s) else None,
                               DecodeUsage(Get(p.usage))))
  }

  // ------------------------------------------------------------ the decoder's loops

  method CollectNodes(reader: Reader, p: Payload) returns (r: Outcome<Collected>)
    ensures r == Collect(reader, p)
  {
    var ids := ArrayOrEmpty(Get(p.modifiedNodes));
    if ids.None? {
      return Complain(ModifiedNodesNotArray);
    }
    var c := Collected([], []);
    for i := 0 to |ids.value|
      invariant RecordIds(reader, Collected([], []), ids.value) == RecordIds(reader, c, ids.value[i..])
    {
      assert ids.value[i..][1..] == ids.value[i + 1..];
      c := Record(c, reader.text(ids.value[i]), None);
    }
    FragmentsAreObjects(reader, Get(p.modifiedFragments));
    var list := AsFragmentList(reader, Get(p.modifiedFragments));
    if list.Err? {
      return Err(list.error);
    }
    r := RecordAllFragments(c, list.value);
    if r.Err? {
      return;
    }
    var sources := ObjectOrEmpty(Get(p.newSources));
    if sources.None? {
      return Complain(SourcesNotObject);
    }
    r := RecordAllSources(r.value, sources.value);
  }

  method RecordAllFragments(start: Collected, fragments: seq<Json>) returns (r: Outcome<Collected>)
    requires forall k :: 0 <= k < |fragments| ==> fragments[k].JObject?
    ensures r == RecordFragments(start, fragments, 0)
  {
    var c := start;
    for index := 0 to |fragments|
      invariant RecordFragments(start, fragments, 0) == RecordFragments(c, fragments, index)
    {
      var id := FragmentId(fragments[index], index);
      if id.Err? {
        return Err(id.error);
      }
      var source := FragmentSource(fragments[index], index);
      if source.Err? {
        return Err(source.error);
      }
      c := Record(c, id.value, source.value);
    }
    return Ok(c);
  }

  method RecordAllSources(start: Collected, fields: Dict<Json>) returns (r: Outcome<Collected>)
    ensures r == RecordSources(start, fields)
  {
    var c := start;
    for i := 0 to |fields|
      invariant RecordSources(start, fields) == RecordSources(c, fields[i..])
    {
      assert fields[i..][1..] == fields[i + 1..];
      if !fields[i].1.JString? {
        return Complain(SourceNotString(fields[i].0));
      }
      c := Record(c, fields[i].0, Some(fields[i].1.s));
    }
    return Ok(c);
  }

  // ------------------------------------------------------------ what is collected is normal

  ghost predicate Normal(c: Collected) {
    && Distinct(c.modified) && DistinctKeys(c.sources)
    && forall i :: 0 <= i < |c.sources| ==> c.sources[i].0 in c.modified
  }

  lemma RecordNormal(c: Collected, id: string, source: Option<string>)
    requires Normal(c)
    ensures Normal(Record(c, id, source))
  {
    if source.Some? {
      PutKeys(c.sources, id, source.value);
    }
  }

  lemma {:induction false} RecordIdsNormal(reader: Reader, c: Collected, items: seq<Json>)
    requires Normal(c)
    ensures Normal(RecordIds(reader, c, items))
    decreases |items|
  {
    if items != [] {
      RecordNormal(c, reader.text(items[0]), None);
      RecordIdsNormal(reader, Record(c, reader.text(items[0]), None), items[1..]);
    }
  }

  lemma {:induction false} RecordFragmentsNormal(c: Collected, fragments: seq<Json>, index: nat)
    requires Normal(c) && index <= |fragments| && forall k :: 0 <= k < |fragments| ==> fragments[k].JObject?
    ensures RecordFragments(c, fragments, index).Ok? ==> Normal(RecordFragments(c, fragments, index).value)
    decreases |fragments| - index
  {
    if index < |fragments| {
      var id, source := FragmentId(fragments[index], index), FragmentSource(fragments[index], index);
      if id.Ok? && source.Ok? {
        RecordNormal(c, id.value, source.value);
        RecordFragmentsNormal(Record(c, id.value, source.value), fragments, index + 1);
      }
    }
  }

  lemma {:induction false} RecordSourcesNormal(c: Collected, fields: Dict<Json>)
    requires Normal(c)
    ensures RecordSources(c, fields).Ok? ==> Normal(RecordSources(c, fields).value)
    decreases |fields|
  {
    if fields != [] && fields[0].1.JString? {
      RecordNormal(c, fields[0].0, Some(fields[0].1.s));
      RecordSourcesNormal(Record(c, fields[0].0, Some(fields[0].1.s)), fields[1..]);
    }
  }

  lemma CollectNormal(reader: Reader, p: Payload)
    requires Collect(reader, p).Ok?
    ensures Normal(Collect(reader, p).value)
  {
    FragmentsAreObjects(reader, Get(p.modifiedFragments));
    var ids := ArrayOrEmpty(Get(p.modifiedNodes)).value;
    var fragments := FragmentList(reader, Get(p.modifiedFragments)).value;
    var start := RecordIds(reader, Collected([], []), ids);
    RecordIdsNormal(reader, Collected([], []), ids);
    RecordFragmentsNormal(start, fragments, 0);
    RecordSourcesNormal(RecordFragments(start, fragments, 0).value, ObjectOrEmpty(Get(p.newSources)).value);
  }

  lemma {:induction false} UsageNormal(done: Dict<int>, fields: Dict<Json>)
    requires DistinctKeys(done)
    ensures DistinctKeys(UsageFrom(done, fields))
    decreases |fields|
  {
    if fields != [] {
      if fields[0].1.JInt? {
        PutKeys(done, fields[0].0, fields[0].1.n);
        UsageNormal(Put(done, fields[0].0, fields[0].1.n), fields[1..]);
      } else {
        UsageNormal(done, fields[1..]);
      }
    }
  }

  // ------------------------------------------------------------ main results

  /** What the decoder can reproduce: ids without repetition that cover the sources, no error
      kind, a nonnegative repair count. */
  ghost predicate Reproducible(r: TaskResult) {
    && Distinct(r.modifiedNodes)
    && (forall i :: 0 <= i < |r.newSources| ==> r.newSources[i].0 in r.modifiedNodes)
    && r.errorKind.None? && r.repairs >= 0
  }

  /** The dictionaries of a result hold each key once. */
  ghost predicate WellFormed(r: TaskResult) {
    DistinctKeys(r.newSources) && DistinctKeys(r.usage)
  }

  lemma {:induction false} RecordIdsBack(reader: Reader, c: Collected, ids: seq<string>)
    requires ReadsStrings(reader) && Distinct(c.modified + ids)
    ensures RecordIds(reader, c, Strings(ids)) == c.(modified := c.modified + ids)
    decreases |ids|
  {
    if ids == [] {
      assert c.modified + ids == c.modified && Strings(ids) == [];
    } else {
      assert Strings(ids)[1..] == Strings(ids[1..]);
      assert (c.modified + ids)[|c.modified|] == ids[0];
      forall i | 0 <= i < |c.modified| ensures c.modified[i] != ids[0] {
        assert (c.modified + ids)[i] == c.modified[i];
      }
      assert (c.modified + [ids[0]]) + ids[1..] == c.modified + ids;
      RecordIdsBack(reader, Record(c, ids[0], None), ids[1..]);
    }
  }

  lemma {:induction false} RecordSourcesBack(c: Collected, d: Dict<string>)
    requires DistinctKeys(c.sources + d)
    requires forall i :: 0 <= i < |d| ==> d[i].0 in c.modified
    ensures RecordSources(c, StringFields(d)) == Ok(c.(sources := c.sources + d))
    decreases |d|
  {
    if d == [] {
      assert c.sources + d == c.sources;
    } else {
      assert StringFields(d)[1..] == StringFields(d[1..]);
      forall i | 0 <= i < |c.sources| ensures c.sources[i].0 != d[0].0 {
        assert (c.sources + d)[i] == c.sources[i] && (c.sources + d)[|c.sources|] == d[0];
      }
      PutNew(c.sources, d[0].0, d[0].1);
      assert (c.sources + [d[0]]) + d[1..] == c.sources + d;
      RecordSourcesBack(Record(c, d[0].0, Some(d[0].1)), d[1..]);
    }
  }

  lemma {:induction false} UsageBack(done: Dict<int>, d: Dict<int>)
    requires DistinctKeys(done + d)
    ensures UsageFrom(done, IntFields(d)) == done + d
    decreases |d|
  {
    if d == [] {
      assert done + d == done;
    } else {
      assert IntFields(d)[1..] == IntFields(d[1..]);
      forall i | 0 <= i < |done| ensures done[i].0 != d[0].0 {
        assert (done + d)[i] == done[i] && (done + d)[|done|] == d[0];
      }
      PutNew(done, d[0].0, d[0].1);
      assert (done + [d[0]]) + d[1..] == done + d;
      UsageBack(done + [d[0]], d[1..]);
    }
  }

  /** What the decoder collects from the two encoded fields, once they are read. */
  lemma CollectPayload(reader: Reader, p: Payload, ids: seq<string>, sources: Dict<string>)
    requires ReadsStrings(reader) && Distinct(ids) && DistinctKeys(sources)
    requires forall i :: 0 <= i < |sources| ==> sources[i].0 in ids
    requires p.modifiedNodes == Some(JArray(Strings(ids))) && p.modifiedFragments == None
    requires p.newSources == Some(JObject(StringFields(sources)))
    ensures Collect(reader, p) == Ok(Collected(ids, sources))
  {
    assert [] + ids == ids && [] + sources == sources;
    RecordIdsBack(reader, Collected([], []), ids);
    RecordSourcesBack(Collected(ids, []), sources);
    EncodedFieldsRead(p, Strings(ids), StringFields(sources));
    assert FragmentList(reader, JNull) == Ok([]);
    assert RecordFragments(Collected(ids, []), [], 0) == Ok(Collected(ids, []));
  }

  lemma EncodedFieldsRead(p: Payload, ids: seq<Json>, sources: Dict<Json>)
    requires p.modifiedNodes == Some(JArray(ids)) && p.newSources == Some(JObject(sources))
    ensures ArrayOrEmpty(Get(p.modifiedNodes)) == Some(ids)
    ensures ObjectOrEmpty(Get(p.newSources)) == Some(sources)
  {
  }

  lemma DecodedIsReproducible(reader: Reader, wire: Wire)
    requires Decode(reader, wire).Ok?
    ensures WellFormed(Decode(reader, wire).value) && Reproducible(Decode(reader, wire).value)
  {
    CollectNormal(reader, wire.payload);
    var usage := Get(wire.payload.usage);
    if usage.JObject? {
      UsageNormal([], usage.fields);
    }
  }

  lemma DecodeReproducible(reader: Reader, r: TaskResult)
    requires ReadsStrings(reader) && WellFormed(r) && Reproducible(r)
    ensures Decode(reader, Encode(r)) == Ok(r)
  {
    CollectPayload(reader, Encode(r).payload, r.modifiedNodes, r.newSources);
    UsageBack([], r.usage);
    assert [] + r.usage == r.usage;
    assert reader.text(JString(r.taskId)) == r.taskId;
  }

  /** Encoding and decoding gives back exactly the reproducible results. */
  lemma RoundTripExactly(reader: Reader, r: TaskResult)
    requires ReadsStrings(reader) && WellFormed(r)
    ensures Decode(reader, Encode(r)) == Ok(r) <==> Reproducible(r)
  {
    if Reproducible(r) {
      DecodeReproducible(reader, r);
    }
    if Decode(reader, Encode(r)) == Ok(r) {
      DecodedIsReproducible(reader, Encode(r));
    }
  }

  /** Decoding is a normal form: whatever was accepted, encoding the result and decoding it again
      changes nothing. */
  lemma DecodeNormalises(reader: Reader, wire: Wire)
    requires ReadsStrings(reader) && Decode(reader, wire).Ok?
    ensures Decode(reader, Encode(Decode(reader, wire).value)) == Decode(reader, wire)
  {
    DecodedIsReproducible(reader, wire);
    DecodeReproducible(reader, Decode(reader, wire).value);
  }

  /** A lone fragment, an array of it, and that array encoded in a string are one message. */
  lemma {:induction false} FragmentShapesAlike(reader: Reader, p: Payload, fields: Dict<Json>, text: string)
    requires reader.loads(text) == Some(JArray([JObject(fields)]))
    ensures
      var lone := Object(p.(modifiedFragments := Some(JObject(fields))));
      var listed := Object(p.(modifiedFragments := Some(JArray([JObject(fields)]))));
      var quoted := Object(p.(modifiedFragments := Some(JString(text))));
      Decode(reader, lone) == Decode(reader, listed) == Decode(reader, quoted)
  {
    var fragment := JObject(fields);
    assert FragmentList(reader, JArray([fragment])) == Ok([fragment]);
    assert FragmentList(reader, JString(text)) == FragmentList(reader, JArray([fragment]));
  }

  /** A source as an element of `modified_fragments`. */
  function FragmentFor(source: (string, string)): Json {
    JObject([("node_id", JString(source.0)), ("new_source", JString(source.1))])
  }

  lemma FragmentForReads(source: (string, string), index: nat)
    requires source.0 != ""
    ensures FragmentId(FragmentFor(source), index) == Ok(source.0)
    ensures FragmentSource(FragmentFor(source), index) == Ok(Some(source.1))
  {
    var fields := FragmentFor(source).fields;
    assert fields[1..] == [("new_source", JString(source.1))];
    assert |"node_id"| != |"new_source"|;
    assert Lookup<Json>(fields, "node_id") == Some(JString(source.0));
    assert Lookup<Json>(fields[1..], "new_source") == Some(JString(source.1));
    assert Lookup<Json>(fields, "new_source") == Some(JString(source.1));
  }

  lemma {:induction false} FragmentsRecordSources(c: Collected, d: Dict<string>, index: nat)
    requires index <= |d| && forall k :: 0 <= k < |d| ==> d[k].0 != ""
    ensures RecordFragments(c, Map(FragmentFor, d), index) == RecordSources(c, StringFields(d[index..]))
    decreases |d| - index
  {
    var rest := StringFields(d[index..]);
    if index == |d| {
      assert rest == [];
    } else {
      FragmentForReads(d[index], index);
      assert rest[0] == (d[index].0, JString(d[index].1)) && rest[1..] == StringFields(d[index + 1..]);
      FragmentsRecordSources(Record(c, d[index].0, Some(d[index].1)), d, index + 1);
    }
  }

  lemma AllFragments(items: seq<Json>)
    requires forall k :: 0 <= k < |items| ==> items[k].JObject?
    ensures ArrayFragments(items) == Ok(items)
  {
  }

  lemma CollectAlike(reader: Reader, p: Payload, d: Dict<string>)
    requires forall k :: 0 <= k < |d| ==> d[k].0 != ""
    ensures
      Collect(reader, p.(modifiedFragments := Some(JArray(Map(FragmentFor, d))), newSources := None)) ==
      Collect(reader, p.(modifiedFragments := None, newSources := Some(JObject(StringFields(d)))))
  {
    var listed := p.(modifiedFragments := Some(JArray(Map(FragmentFor, d))), newSources := None);
    var mapped := p.(modifiedFragments := None, newSources := Some(JObject(StringFields(d))));
    var ids := ArrayOrEmpty(Get(p.modifiedNodes));
    if ids.Some? {
      var start := RecordIds(reader, Collected([], []), ids.value);
      FragmentsRecordSources(start, d, 0);
      assert d[0..] == d;
      AllFragments(Map(FragmentFor, d));
      assert FragmentList(reader, Get(listed.modifiedFragments)) == Ok(Map(FragmentFor, d));
      assert FragmentList(reader, Get(mapped.modifiedFragments)) == Ok([]);
      assert ObjectOrEmpty(Get(listed.newSources)) == Some([]);
      assert ObjectOrEmpty(Get(mapped.newSources)) == Some(StringFields(d));
    }
  }

  lemma DecodeAlike(reader: Reader, p: Payload, q: Payload)
    requires q == p.(modifiedFragments := q.modifiedFragments, newSources := q.newSources)
    requires Collect(reader, p) == Collect(reader, q)
    ensures Decode(reader, Object(p)) == Decode(reader, Object(q))
  {
    assert DecodeBody(reader, p) == DecodeBody(reader, q);
  }

  /** Sources sent as fragments and sources sent as a mapping decode alike. */
  lemma FragmentsAreSources(reader: Reader, p: Payload, d: Dict<string>)
    requires forall k :: 0 <= k < |d| ==> d[k].0 != ""
    ensures
      Decode(reader, Object(p.(modifiedFragments := Some(JArray(Map(FragmentFor, d))), newSources := None))) ==
      Decode(reader, Object(p.(modifiedFragments := None, newSources := Some(JObject(StringFields(d))))))
  {
    var listed := p.(modifiedFragments := Some(JArray(Map(FragmentFor, d))), newSources := None);
    var mapped := p.(modifiedFragments := None, newSources := Some(JObject(StringFields(d))));
    CollectAlike(reader, p, d);
    DecodeAlike(reader, listed, mapped);
  }
}
