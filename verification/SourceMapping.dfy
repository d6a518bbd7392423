/** Mapping the node ids an agent returned onto the nodes its task may write. */
module SourceMapping {
  import opened Sequences
  import opened Options
  import opened OrderedDicts
  import opened Ordering
  import opened Text
  import opened NodeIds

  /** Where a returned id ends up. */
  datatype Fate = AsItself | FoldedInto(file: string) | Dropped

  function FateOf(grant: seq<string>, id: string): Fate {
    if id in grant then AsItself
    else if FilePath(id) in grant && IsWholeFile(FilePath(id)) then FoldedInto(FilePath(id))
    else Dropped
  }

  /** A fragment to be folded into a whole file, with its sort key. */
  datatype Part = Part(tier: nat, known: int, index: nat, source: string)

  predicate Before(a: Part, b: Part) {
    || a.tier < b.tier
    || (a.tier == b.tier && (a.known < b.known || (a.known == b.known && a.index < b.index)))
  }

  /** The recorded source order of node ids, where one is known. */
  type OrderKey = string -> Option<int>

  function Tier(orderKey: OrderKey, id: string): nat {
    if IsHeader(id) then 0 else if orderKey(id).Some? then 1 else 2
  }

  function Known(orderKey: OrderKey, id: string): int {
    if !IsHeader(id) && orderKey(id).Some? then orderKey(id).value else 0
  }

  function FoldOrder(orderKey: OrderKey, id: string, index: nat, source: string): Part {
    Part(Tier(orderKey, id), Known(orderKey, id), index, source)
  }

  function StripNewlines(s: string): string {
    StripRight(StripLeft(s, c => c == '\n'), c => c == '\n')
  }

  function SourceOf(part: Part): string {
    StripNewlines(part.source)
  }

  function Concatenate(parts: seq<Part>): string {
    Join("\n\n", Map(SourceOf, parts)) + "\n"
  }

  function FoldText(parts: seq<Part>): string {
    Concatenate(Sort(parts, Before))
  }

  // ------------------------------------------------------------ specification

  /** The source returned under `id` itself among the first `n` entries, if `id` was granted. */
  function Direct(grant: seq<string>, d: Dict<string>, n: nat, id: string): (r: Option<string>)
    requires n <= |d|
    ensures r.Some? <==> id in grant && exists i :: 0 <= i < n && d[i].0 == id
  {
    if n == 0 then None
    else if d[n - 1].0 == id && id in grant then Some(d[n - 1].1)
    else Direct(grant, d, n - 1, id)
  }

  /** The fragments among the first `n` entries that fold into `file`, as emitted. */
  function Parts(grant: seq<string>, orderKey: OrderKey, d: Dict<string>, n: nat, file: string): seq<Part>
    requires n <= |d|
  {
    if n == 0 then []
    else
      Parts(grant, orderKey, d, n - 1, file) +
      if FateOf(grant, d[n - 1].0) == FoldedInto(file) then [FoldOrder(orderKey, d[n - 1].0, n - 1, d[n - 1].1)] else []
  }

  function DroppedBelow(grant: seq<string>, d: Dict<string>, n: nat): (ids: seq<string>)
    requires n <= |d|
    ensures forall id :: id in ids <==> FateOf(grant, id) == Dropped && exists i :: 0 <= i < n && d[i].0 == id
  {
    if n == 0 then []
    else DroppedBelow(grant, d, n - 1) + if FateOf(grant, d[n - 1].0) == Dropped then [d[n - 1].0] else []
  }

  /** The source accepted for `id`: returned as itself, or folded from fragments of the file. */
  function AcceptedSource(grant: seq<string>, orderKey: OrderKey, d: Dict<string>, id: string): Option<string> {
    var direct := Direct(grant, d, |d|, id);
    var parts := Parts(grant, orderKey, d, |d|, id);
    if direct.Some? then direct
    else if parts != [] then Some(FoldText(parts))
    else None
  }

  function Get<V>(m: map<string, V>, key: string): Option<V> {
    if key in m then Some(m[key]) else None
  }

  function PartsIn(folded: map<string, seq<Part>>, file: string): seq<Part> {
    if file in folded then folded[file] else []
  }

  /** What the method's dictionaries hold after `n` entries. */
  ghost predicate AcceptedSoFar(grant: seq<string>, d: Dict<string>, n: nat, accepted: map<string, string>)
    requires n <= |d|
  {
    forall id :: Get(accepted, id) == Direct(grant, d, n, id)
  }

  ghost predicate FoldedSoFar(grant: seq<string>, orderKey: OrderKey, d: Dict<string>, n: nat, folded: map<string, seq<Part>>)
    requires n <= |d|
  {
    && (forall file :: PartsIn(folded, file) == Parts(grant, orderKey, d, n, file))
    && (forall file :: file in folded ==> folded[file] != [])
  }

  lemma AcceptOne(grant: seq<string>, d: Dict<string>, n: nat, accepted: map<string, string>)
    requires n < |d| && AcceptedSoFar(grant, d, n, accepted)
    ensures AcceptedSoFar(grant, d, n + 1, if d[n].0 in grant then accepted[d[n].0 := d[n].1] else accepted)
  {
    forall id ensures Direct(grant, d, n + 1, id) ==
      if d[n].0 == id && id in grant then Some(d[n].1) else Direct(grant, d, n, id)
    {
    }
  }

  lemma FoldOne(grant: seq<string>, orderKey: OrderKey, d: Dict<string>, n: nat, folded: map<string, seq<Part>>, fate: Fate)
    requires n < |d| && FoldedSoFar(grant, orderKey, d, n, folded) && fate == FateOf(grant, d[n].0)
    ensures FoldedSoFar(grant, orderKey, d, n + 1,
                        if fate.FoldedInto?
                        then folded[fate.file := PartsIn(folded, fate.file) + [FoldOrder(orderKey, d[n].0, n, d[n].1)]]
                        else folded)
  {
    var part := FoldOrder(orderKey, d[n].0, n, d[n].1);
    forall file ensures Parts(grant, orderKey, d, n + 1, file) ==
      Parts(grant, orderKey, d, n, file) + if fate == FoldedInto(file) then [part] else []
    {
    }
  }

  /** `accepted` adds to `explicit` the folded files that were not returned as a whole. */
  ghost predicate FoldsIn(explicit: map<string, string>, folded: map<string, seq<Part>>, accepted: map<string, string>) {
    forall id :: (
      Get(accepted, id) ==
      if id in folded && id !in explicit then Some(FoldText(folded[id])) else Get(explicit, id))
  }

  lemma FoldedInIsAccepted(grant: seq<string>, orderKey: OrderKey, d: Dict<string>, explicit: map<string, string>,
                           folded: map<string, seq<Part>>, accepted: map<string, string>)
    requires AcceptedSoFar(grant, d, |d|, explicit) && FoldedSoFar(grant, orderKey, d, |d|, folded)
    requires FoldsIn(explicit, folded, accepted)
    ensures forall id :: Get(accepted, id) == AcceptedSource(grant, orderKey, d, id)
  {
    forall id ensures Get(accepted, id) == AcceptedSource(grant, orderKey, d, id) {
      assert Get(explicit, id) == Direct(grant, d, |d|, id);
      assert PartsIn(folded, id) == Parts(grant, orderKey, d, |d|, id);
    }
  }

  method MapReturnedSources(grant: seq<string>, newSources: Dict<string>, orderKey: OrderKey)
    returns (accepted: map<string, string>, dropped: seq<string>)
    ensures forall id :: Get(accepted, id) == AcceptedSource(grant, orderKey, newSources, id)
    ensures dropped == DroppedBelow(grant, newSources, |newSources|)
    ensures forall id :: id in dropped <==> Returned(newSources, id) && OutOfGrant(grant, id)
    ensures forall id :: id in accepted <==>
      id in grant && (Returned(newSources, id) || exists i :: FoldsAt(grant, newSources, id, i))
  {
    accepted, dropped := map[], [];
    var folded: map<string, seq<Part>> := map[];
    for index := 0 to |newSources|
      invariant AcceptedSoFar(grant, newSources, index, accepted)
      invariant FoldedSoFar(grant, orderKey, newSources, index, folded)
      invariant dropped == DroppedBelow(grant, newSources, index)
    {
      var (id, source) := newSources[index];
      var fate := FateOf(grant, id);
      AcceptOne(grant, newSources, index, accepted);
      FoldOne(grant, orderKey, newSources, index, folded, fate);
      match fate {
        case AsItself => accepted := accepted[id := source];
        case FoldedInto(file) =>
          folded := folded[file := PartsIn(folded, file) + [FoldOrder(orderKey, id, index, source)]];
        case Dropped => dropped := dropped + [id];
      }
    }
    ghost var explicit := accepted;
    accepted := FoldIn(accepted, folded);
    FoldedInIsAccepted(grant, orderKey, newSources, explicit, folded, accepted);
    forall id ensures id in dropped <==> Returned(newSources, id) && OutOfGrant(grant, id) {
      DroppedExactly(grant, newSources, id);
    }
    forall id ensures id in accepted <==>
      id in grant && (Returned(newSources, id) || exists i :: FoldsAt(grant, newSources, id, i))
    {
      AcceptedExactly(grant, orderKey, newSources, id);
      assert Get(accepted, id) == AcceptedSource(grant, orderKey, newSources, id);
    }
  }

  /** A file the agent also returned as a whole keeps that source. */
  method FoldIn(explicit: map<string, string>, folded: map<string, seq<Part>>) returns (accepted: map<string, string>)
    ensures FoldsIn(explicit, folded, accepted)
  {
    accepted := explicit;
    var files := folded.Keys;
    while files != {}
      invariant files <= folded.Keys
      invariant forall id :: (
        Get(accepted, id) ==
        if id in folded.Keys - files && id !in explicit then Some(FoldText(folded[id])) else Get(explicit, id))
    {
      var file :| file in files;
      if file !in accepted {
        accepted := accepted[file := FoldText(folded[file])];
      }
      files := files - {file};
    }
  }

  // ------------------------------------------------------------ every id has one fate

  lemma {:induction false} PartsNonempty(grant: seq<string>, orderKey: OrderKey, d: Dict<string>, n: nat, file: string)
    requires n <= |d|
    ensures Parts(grant, orderKey, d, n, file) != [] ==> file in grant
    ensures forall i :: 0 <= i < n && FateOf(grant, d[i].0) == FoldedInto(file) ==> (
      FoldOrder(orderKey, d[i].0, i, d[i].1) in Parts(grant, orderKey, d, n, file))
  {
    if n > 0 {
      PartsNonempty(grant, orderKey, d, n - 1, file);
    }
  }

  lemma AcceptedAreGranted(grant: seq<string>, orderKey: OrderKey, d: Dict<string>, id: string)
    ensures AcceptedSource(grant, orderKey, d, id).Some? ==> id in grant
  {
    PartsNonempty(grant, orderKey, d, |d|, id);
  }

  lemma {:induction false} DirectIsReturned(grant: seq<string>, d: Dict<string>, n: nat, i: nat)
    requires DistinctKeys(d) && i < n <= |d| && d[i].0 in grant
    ensures Direct(grant, d, n, d[i].0) == Some(d[i].1)
  {
    if i < n - 1 {
      DirectIsReturned(grant, d, n - 1, i);
    }
  }

  lemma SortKeeps(parts: seq<Part>, part: Part) returns (k: nat)
    requires part in parts
    ensures k < |parts| && Sort(parts, Before)[k] == part
  {
    assert part in multiset(Sort(parts, Before));
    k :| k < |parts| && Sort(parts, Before)[k] == part;
  }

  lemma StillContains(text: string, part: string, more: string)
    requires Contains(text, part)
    ensures Contains(text + more, part)
  {
    var before, after :| text == before + part + after;
    assert text + more == before + part + (after + more);
  }

  lemma FoldContains(parts: seq<Part>, part: Part)
    requires part in parts
    ensures Contains(FoldText(parts), SourceOf(part))
  {
    var k := SortKeeps(parts, part);
    var sources := Map(SourceOf, Sort(parts, Before));
    assert sources[k] == SourceOf(part);
    JoinContains("\n\n", sources, k);
    StillContains(Join("\n\n", sources), sources[k], "\n");
  }

  /** Every returned id is accepted as itself, folded into its granted file, or dropped: its own
      source is kept, contained in the file's, overridden by an explicit file, or reported. */
  lemma EveryIdHasOneFate(grant: seq<string>, orderKey: OrderKey, d: Dict<string>, i: nat)
    requires DistinctKeys(d) && i < |d|
    ensures
      var (id, source) := d[i];
      match FateOf(grant, id)
      case AsItself =>
        && AcceptedSource(grant, orderKey, d, id) == Some(source)
        && id !in DroppedBelow(grant, d, |d|)
      case FoldedInto(file) =>
        && AcceptedSource(grant, orderKey, d, id) == None
        && id !in DroppedBelow(grant, d, |d|)
        && AcceptedSource(grant, orderKey, d, file).Some?
        && (if Direct(grant, d, |d|, file).Some?
            then AcceptedSource(grant, orderKey, d, file) == Direct(grant, d, |d|, file)
            else Contains(AcceptedSource(grant, orderKey, d, file).value, StripNewlines(source)))
      case Dropped =>
        && AcceptedSource(grant, orderKey, d, id) == None
        && id in DroppedBelow(grant, d, |d|)
  {
    var (id, source) := d[i];
    AcceptedAreGranted(grant, orderKey, d, id);
    match FateOf(grant, id) {
      case AsItself => DirectIsReturned(grant, d, |d|, i);
      case FoldedInto(file) =>
        PartsNonempty(grant, orderKey, d, |d|, file);
        FoldContains(Parts(grant, orderKey, d, |d|, file), FoldOrder(orderKey, id, i, source));
      case Dropped =>
    }
  }

  // ------------------------------------------------------------ the order inside a folded file

  lemma SortedParts(parts: seq<Part>)
    ensures Sorted(Sort(parts, Before), Before)
  {
    assert StrictWeak(Before);
    SortSorted(parts, Before);
  }

  lemma FirstLeads(parts: seq<Part>)
    requires parts != []
    ensures SourceOf(parts[0]) <= Concatenate(parts)
  {
    var sources := Map(SourceOf, parts);
    JoinStarts("\n\n", sources);
    assert sources[0] == SourceOf(parts[0]);
  }

  lemma {:induction false} PartsAreReturned(grant: seq<string>, orderKey: OrderKey, d: Dict<string>, n: nat, file: string, part: Part)
    requires n <= |d| && part in Parts(grant, orderKey, d, n, file)
    ensures part.index < n && FateOf(grant, d[part.index].0) == FoldedInto(file)
    ensures part == FoldOrder(orderKey, d[part.index].0, part.index, d[part.index].1)
  {
    if part in Parts(grant, orderKey, d, n - 1, file) {
      PartsAreReturned(grant, orderKey, d, n - 1, file, part);
    }
  }

  /** A part that sorts before all the others leads the text. */
  lemma LeastLeads(parts: seq<Part>, least: Part)
    requires least in parts && forall p :: p in parts ==> p == least || Before(least, p)
    ensures SourceOf(least) <= FoldText(parts)
  {
    var sorted := Sort(parts, Before);
    LeastSortsFirst(parts, sorted, least);
    FirstLeads(sorted);
  }

  lemma LeastSortsFirst(parts: seq<Part>, sorted: seq<Part>, least: Part)
    requires least in parts && forall p :: p in parts ==> p == least || Before(least, p)
    requires sorted == Sort(parts, Before)
    ensures sorted != [] && sorted[0] == least
  {
    SortedParts(parts);
    assert least in multiset(sorted);
    var k :| 0 <= k < |sorted| && sorted[k] == least;
    assert k == 0 || !Before(sorted[k], sorted[0]);
    assert sorted[0] in multiset(parts);
  }

  /** Entry `i` is a module header to be folded into `file`. */
  predicate HeaderOf(grant: seq<string>, d: Dict<string>, file: string, i: nat)
    requires i < |d|
  {
    FateOf(grant, d[i].0) == FoldedInto(file) && IsHeader(d[i].0)
  }

  ghost predicate FirstHeader(grant: seq<string>, d: Dict<string>, file: string, i: nat)
    requires i < |d|
  {
    HeaderOf(grant, d, file, i) && forall j :: 0 <= j < i ==> !HeaderOf(grant, d, file, j)
  }

  lemma FirstHeaderIsLeast(grant: seq<string>, orderKey: OrderKey, d: Dict<string>, file: string, i: nat, p: Part)
    requires i < |d| && FirstHeader(grant, d, file, i)
    requires p in Parts(grant, orderKey, d, |d|, file)
    ensures p == FoldOrder(orderKey, d[i].0, i, d[i].1) || Before(FoldOrder(orderKey, d[i].0, i, d[i].1), p)
  {
    PartsAreReturned(grant, orderKey, d, |d|, file, p);
    if p.index < i {
      assert !HeaderOf(grant, d, file, p.index);
    }
  }

  /** The module header emitted first leads the folded file, whatever was emitted before it. */
  lemma HeaderLeads(grant: seq<string>, orderKey: OrderKey, d: Dict<string>, file: string, i: nat)
    requires i < |d| && FirstHeader(grant, d, file, i)
    ensures StripNewlines(d[i].1) <= FoldText(Parts(grant, orderKey, d, |d|, file))
  {
    var parts := Parts(grant, orderKey, d, |d|, file);
    var header := FoldOrder(orderKey, d[i].0, i, d[i].1);
    PartsNonempty(grant, orderKey, d, |d|, file);
    forall p | p in parts ensures p == header || Before(header, p) {
      FirstHeaderIsLeast(grant, orderKey, d, file, i, p);
    }
    LeastLeads(parts, header);
  }

  lemma ConcatenatedInOrder(parts: seq<Part>, k: nat, l: nat)
    requires k < l < |parts|
    ensures InOrder(Concatenate(parts), SourceOf(parts[k]), SourceOf(parts[l]))
  {
    var sources := Map(SourceOf, parts);
    var text := Join("\n\n", sources);
    assert sources[k] == SourceOf(parts[k]) && sources[l] == SourceOf(parts[l]);
    JoinInOrder("\n\n", sources, k, l);
    var before, between, after :| text == before + sources[k] + between + sources[l] + after;
    assert text + "\n" == before + sources[k] + between + sources[l] + (after + "\n");
    InOrderAt(text + "\n", before, sources[k], between, sources[l], after + "\n");
  }

  /** Among folded fragments, headers come first, then those with a known order in that order,
      then the others; fragments that tie come as they were emitted. */
  lemma FragmentsInOrder(grant: seq<string>, orderKey: OrderKey, d: Dict<string>, file: string, i: nat, j: nat)
    requires i < |d| && j < |d| && FateOf(grant, d[i].0) == FateOf(grant, d[j].0) == FoldedInto(file)
    requires Before(FoldOrder(orderKey, d[i].0, i, d[i].1), FoldOrder(orderKey, d[j].0, j, d[j].1))
    ensures InOrder(FoldText(Parts(grant, orderKey, d, |d|, file)), StripNewlines(d[i].1), StripNewlines(d[j].1))
  {
    var parts := Parts(grant, orderKey, d, |d|, file);
    PartsNonempty(grant, orderKey, d, |d|, file);
    SortedInOrder(parts, FoldOrder(orderKey, d[i].0, i, d[i].1), FoldOrder(orderKey, d[j].0, j, d[j].1));
  }

  lemma SortedInOrder(parts: seq<Part>, p: Part, q: Part)
    requires p in parts && q in parts && Before(p, q)
    ensures InOrder(FoldText(parts), SourceOf(p), SourceOf(q))
  {
    var k := SortKeeps(parts, p);
    var l := SortKeeps(parts, q);
    SortedParts(parts);
    PrecedesInSorted(Sort(parts, Before), k, l);
    ConcatenatedInOrder(Sort(parts, Before), k, l);
  }

  lemma PrecedesInSorted(sorted: seq<Part>, k: nat, l: nat)
    requires Sorted(sorted, Before) && k < |sorted| && l < |sorted| && Before(sorted[k], sorted[l])
    ensures k < l
  {
    assert sorted[k] != sorted[l];
  }

  /** A part without its place in the emission. */
  datatype Bare = Bare(tier: nat, known: int, source: string)

  function BareOf(part: Part): Bare {
    Bare(part.tier, part.known, part.source)
  }

  predicate BareBefore(a: Bare, b: Bare) {
    a.tier < b.tier || (a.tier == b.tier && a.known < b.known)
  }

  function SourceOfBare(bare: Bare): string {
    StripNewlines(bare.source)
  }

  function BareEntry(orderKey: OrderKey): ((string, string)) -> Bare {
    (e: (string, string)) => Bare(Tier(orderKey, e.0), Known(orderKey, e.0), e.1)
  }

  function FoldsInto(grant: seq<string>, file: string): ((string, string)) -> bool {
    (e: (string, string)) => FateOf(grant, e.0) == FoldedInto(file)
  }

  lemma {:induction false} BareParts(grant: seq<string>, orderKey: OrderKey, d: Dict<string>, n: nat, file: string)
    requires n <= |d|
    ensures Map(BareOf, Parts(grant, orderKey, d, n, file)) == Map(BareEntry(orderKey), Filter(d[..n], FoldsInto(grant, file)))
  {
    if n > 0 {
      BareParts(grant, orderKey, d, n - 1, file);
      assert d[..n] == d[..n - 1] + [d[n - 1]];
      var folds, entry := FoldsInto(grant, file), BareEntry(orderKey);
      FilterConcat(d[..n - 1], [d[n - 1]], folds);
      var earlier := Parts(grant, orderKey, d, n - 1, file);
      var last := if folds(d[n - 1]) then [FoldOrder(orderKey, d[n - 1].0, n - 1, d[n - 1].1)] else [];
      MapConcat(BareOf, earlier, last);
      MapConcat(entry, Filter(d[..n - 1], folds), Filter([d[n - 1]], folds));
    }
  }

  lemma {:induction false} SourcesAreBare(parts: seq<Part>)
    ensures Map(SourceOf, parts) == Map(SourceOfBare, Map(BareOf, parts))
  {
    if parts != [] {
      SourcesAreBare(parts[1..]);
    }
  }

  /** No two parts have the same tier and known order, unless they are alike throughout. */
  ghost predicate Told(bare: seq<Bare>) {
    forall x, y :: x in bare && y in bare && x.tier == y.tier && x.known == y.known ==> x == y
  }

  lemma ToldStays(a: seq<Bare>, b: seq<Bare>)
    requires Told(a) && multiset(a) == multiset(b)
    ensures Told(b)
  {
    forall x | x in b ensures x in a {
      assert x in multiset(b);
    }
  }

  lemma BareSorted(parts: seq<Part>)
    ensures Sorted(Map(BareOf, Sort(parts, Before)), BareBefore)
    ensures multiset(Map(BareOf, Sort(parts, Before))) == multiset(Map(BareOf, parts))
  {
    SortedParts(parts);
    MapOfPermutation(BareOf, Sort(parts, Before), parts);
    var sorted := Sort(parts, Before);
    var bare := Map(BareOf, sorted);
    forall i, j | 0 <= i < j < |bare| ensures !BareBefore(bare[j], bare[i]) {
      assert !Before(sorted[j], sorted[i]);
    }
  }

  lemma OneArrangement(s: seq<Bare>, t: seq<Bare>)
    requires Sorted(s, BareBefore) && Sorted(t, BareBefore) && multiset(s) == multiset(t) && Told(s)
    ensures s == t
  {
    assert StrictWeak(BareBefore);
    SortedUnique(s, t, BareBefore);
  }

  /** The folded text is a function of the bare parts when their keys tell them apart. */
  lemma FoldTextOfBare(a: seq<Part>, b: seq<Part>)
    requires multiset(Map(BareOf, a)) == multiset(Map(BareOf, b)) && Told(Map(BareOf, a))
    ensures FoldText(a) == FoldText(b)
  {
    BareSorted(a);
    BareSorted(b);
    ToldStays(Map(BareOf, a), Map(BareOf, Sort(a, Before)));
    OneArrangement(Map(BareOf, Sort(a, Before)), Map(BareOf, Sort(b, Before)));
    SameBareSameText(Sort(a, Before), Sort(b, Before));
  }

  lemma SameBareSameText(a: seq<Part>, b: seq<Part>)
    requires Map(BareOf, a) == Map(BareOf, b)
    ensures Concatenate(a) == Concatenate(b)
  {
    SourcesAreBare(a);
    SourcesAreBare(b);
  }

  /** Two ids of `ids` that would be folded into one file have different sort keys. */
  ghost predicate NoTies(grant: seq<string>, orderKey: OrderKey, ids: set<string>) {
    forall x, y :: x in ids && y in ids && x != y ==> !Tied(grant, orderKey, x, y)
  }

  ghost predicate Tied(grant: seq<string>, orderKey: OrderKey, x: string, y: string) {
    && FateOf(grant, x).FoldedInto? && FateOf(grant, x) == FateOf(grant, y)
    && Tier(orderKey, x) == Tier(orderKey, y) && Known(orderKey, x) == Known(orderKey, y)
  }

  ghost predicate Returns(d: Dict<string>, ids: set<string>) {
    DistinctKeys(d) && forall i :: 0 <= i < |d| ==> d[i].0 in ids
  }

  /** The accepted sources do not depend on the order in which ids of `ids` are returned. */
  ghost predicate OrderIndependent(grant: seq<string>, orderKey: OrderKey, ids: set<string>) {
    forall d, e :: Returns(d, ids) && Returns(e, ids) && multiset(d) == multiset(e) ==>
      SameAccepted(grant, orderKey, d, e)
  }

  ghost predicate SameAccepted(grant: seq<string>, orderKey: OrderKey, d: Dict<string>, e: Dict<string>) {
    forall id :: AcceptedSource(grant, orderKey, d, id) == AcceptedSource(grant, orderKey, e, id)
  }

  lemma DirectStays(grant: seq<string>, d: Dict<string>, e: Dict<string>, id: string)
    requires DistinctKeys(d) && DistinctKeys(e) && multiset(d) == multiset(e)
    requires Direct(grant, d, |d|, id).Some?
    ensures Direct(grant, d, |d|, id) == Direct(grant, e, |e|, id)
  {
    var i :| 0 <= i < |d| && d[i].0 == id;
    assert d[i] in multiset(e);
    var j :| 0 <= j < |e| && e[j] == d[i];
    DirectIsReturned(grant, d, |d|, i);
    DirectIsReturned(grant, e, |e|, j);
  }

  lemma SameDirect(grant: seq<string>, d: Dict<string>, e: Dict<string>, id: string)
    requires DistinctKeys(d) && DistinctKeys(e) && multiset(d) == multiset(e)
    ensures Direct(grant, d, |d|, id) == Direct(grant, e, |e|, id)
  {
    if Direct(grant, d, |d|, id).Some? {
      DirectStays(grant, d, e, id);
    } else if Direct(grant, e, |e|, id).Some? {
      DirectStays(grant, e, d, id);
    }
  }

  lemma SameFolded(grant: seq<string>, orderKey: OrderKey, d: Dict<string>, e: Dict<string>, ids: set<string>, file: string)
    requires Returns(d, ids) && Returns(e, ids) && multiset(d) == multiset(e) && NoTies(grant, orderKey, ids)
    ensures
      var a, b := Parts(grant, orderKey, d, |d|, file), Parts(grant, orderKey, e, |e|, file);
      (a == [] <==> b == []) && FoldText(a) == FoldText(b)
  {
    var folds, entry := FoldsInto(grant, file), BareEntry(orderKey);
    assert d[..|d|] == d && e[..|e|] == e;
    BareParts(grant, orderKey, d, |d|, file);
    BareParts(grant, orderKey, e, |e|, file);
    FilterOfPermutation(d, e, folds);
    MapOfPermutation(entry, Filter(d, folds), Filter(e, folds));
    var a, b := Parts(grant, orderKey, d, |d|, file), Parts(grant, orderKey, e, |e|, file);
    assert |multiset(Map(BareOf, a))| == |a| && |multiset(Map(BareOf, b))| == |b|;
    KeysTell(grant, orderKey, d, ids, file);
    FoldTextOfBare(a, b);
  }

  lemma KeysTell(grant: seq<string>, orderKey: OrderKey, d: Dict<string>, ids: set<string>, file: string)
    requires Returns(d, ids) && NoTies(grant, orderKey, ids)
    ensures Told(Map(BareEntry(orderKey), Filter(d, FoldsInto(grant, file))))
  {
    var entry, folded := BareEntry(orderKey), Filter(d, FoldsInto(grant, file));
    var bare := Map(entry, folded);
    forall x, y | x in bare && y in bare && x.tier == y.tier && x.known == y.known ensures x == y {
      var i :| 0 <= i < |bare| && bare[i] == x;
      var j :| 0 <= j < |bare| && bare[j] == y;
      assert folded[i] in folded && folded[j] in folded;
      KeysTellTwo(grant, orderKey, d, ids, file, folded[i], folded[j]);
    }
  }

  lemma KeysTellTwo(grant: seq<string>, orderKey: OrderKey, d: Dict<string>, ids: set<string>, file: string,
                    x: (string, string), y: (string, string))
    requires Returns(d, ids) && NoTies(grant, orderKey, ids) && x in d && y in d
    requires FateOf(grant, x.0) == FateOf(grant, y.0) == FoldedInto(file)
    requires Tier(orderKey, x.0) == Tier(orderKey, y.0) && Known(orderKey, x.0) == Known(orderKey, y.0)
    ensures x == y
  {
    var k :| 0 <= k < |d| && d[k] == x;
    var l :| 0 <= l < |d| && d[l] == y;
    assert Tied(grant, orderKey, d[k].0, d[l].0);
  }

  lemma FirstOfTwo(a: Part, b: Part)
    requires a.tier == b.tier && a.known == b.known && a.index < b.index
    ensures SourceOf(a) <= FoldText([a, b])
  {
    assert [a, b][1..] == [b];
    assert Sort([b], Before) == [b];
    assert Sort([a, b], Before) == [a, b];
    FirstLeads([a, b]);
  }

  lemma TwoParts(grant: seq<string>, orderKey: OrderKey, d: Dict<string>, file: string) returns (a: Part, b: Part)
    requires |d| == 2 && Tied(grant, orderKey, d[0].0, d[1].0) && FateOf(grant, d[0].0) == FoldedInto(file)
    ensures Parts(grant, orderKey, d, 2, file) == [a, b] && Direct(grant, d, 2, file) == None
    ensures a.tier == b.tier && a.known == b.known && a.index < b.index
    ensures a.source == d[0].1
  {
    a, b := FoldOrder(orderKey, d[0].0, 0, d[0].1), FoldOrder(orderKey, d[1].0, 1, d[1].1);
    assert Parts(grant, orderKey, d, 0, file) == [];
    assert Parts(grant, orderKey, d, 1, file) == [a];
    assert file in grant && d[0].0 !in grant && d[1].0 !in grant;
  }

  /** Of two tied ids, the one returned first leads. */
  lemma FirstTiedLeads(grant: seq<string>, orderKey: OrderKey, d: Dict<string>, file: string)
    requires |d| == 2 && Tied(grant, orderKey, d[0].0, d[1].0) && FateOf(grant, d[0].0) == FoldedInto(file)
    ensures AcceptedSource(grant, orderKey, d, file).Some?
    ensures StripNewlines(d[0].1) <= AcceptedSource(grant, orderKey, d, file).value
  {
    var a, b := TwoParts(grant, orderKey, d, file);
    FirstOfTwo(a, b);
    FoldedIsAccepted(grant, orderKey, d, file, [a, b]);
  }

  lemma FoldedIsAccepted(grant: seq<string>, orderKey: OrderKey, d: Dict<string>, file: string, parts: seq<Part>)
    requires Direct(grant, d, |d|, file) == None && Parts(grant, orderKey, d, |d|, file) == parts != []
    ensures AcceptedSource(grant, orderKey, d, file) == Some(FoldText(parts))
  {
  }

  /** Text with no line feed at either end is not stripped. */
  lemma StripNothing(s: string)
    requires s != "" && s[0] != '\n' && s[|s| - 1] != '\n'
    ensures StripNewlines(s) == s
  {
  }

  /** Two tied ids, returned in either order, give two different files. */
  lemma TiesMatter(grant: seq<string>, orderKey: OrderKey, x: string, y: string, s: string, t: string)
    requires Tied(grant, orderKey, x, y)
    requires |s| == |t| == 1 && s[0] != t[0] && s[0] != '\n' && t[0] != '\n'
    ensures !SameAccepted(grant, orderKey, [(x, s), (y, t)], [(y, t), (x, s)])
  {
    var file := FateOf(grant, x).file;
    FirstTiedLeads(grant, orderKey, [(x, s), (y, t)], file);
    FirstTiedLeads(grant, orderKey, [(y, t), (x, s)], file);
    StripNothing(s);
    StripNothing(t);
    assert AcceptedSource(grant, orderKey, [(x, s), (y, t)], file).value[0] == s[0];
    assert AcceptedSource(grant, orderKey, [(y, t), (x, s)], file).value[0] == t[0];
  }

  lemma NoTiesSuffice(grant: seq<string>, orderKey: OrderKey, ids: set<string>, d: Dict<string>, e: Dict<string>)
    requires NoTies(grant, orderKey, ids) && Returns(d, ids) && Returns(e, ids) && multiset(d) == multiset(e)
    ensures SameAccepted(grant, orderKey, d, e)
  {
    forall id ensures AcceptedSource(grant, orderKey, d, id) == AcceptedSource(grant, orderKey, e, id) {
      SameDirect(grant, d, e, id);
      SameFolded(grant, orderKey, d, e, ids, id);
    }
  }

  lemma ReturnedInEitherOrder(ids: set<string>, a: (string, string), b: (string, string))
    requires a.0 in ids && b.0 in ids && a.0 != b.0
    ensures Returns([a, b], ids) && Returns([b, a], ids) && multiset([a, b]) == multiset([b, a])
  {
  }

  lemma TiesRefute(grant: seq<string>, orderKey: OrderKey, ids: set<string>, x: string, y: string, s: string, t: string)
    requires x in ids && y in ids && x != y && Tied(grant, orderKey, x, y)
    requires |s| == |t| == 1 && s[0] != t[0] && s[0] != '\n' && t[0] != '\n'
    ensures !OrderIndependent(grant, orderKey, ids)
  {
    ReturnedInEitherOrder(ids, (x, s), (y, t));
    TiesMatter(grant, orderKey, x, y, s, t);
    Refute(grant, orderKey, ids, [(x, s), (y, t)], [(y, t), (x, s)]);
  }

  lemma Refute(grant: seq<string>, orderKey: OrderKey, ids: set<string>, d: Dict<string>, e: Dict<string>)
    requires Returns(d, ids) && Returns(e, ids) && multiset(d) == multiset(e)
    requires !SameAccepted(grant, orderKey, d, e)
    ensures !OrderIndependent(grant, orderKey, ids)
  {
  }

  /** What is accepted is independent of the emission order exactly when no two ids that may be
      returned tie inside one file. */
  lemma OrderIndependentExactly(grant: seq<string>, orderKey: OrderKey, ids: set<string>)
    ensures OrderIndependent(grant, orderKey, ids) <==> NoTies(grant, orderKey, ids)
  {
    if NoTies(grant, orderKey, ids) {
      forall d, e | Returns(d, ids) && Returns(e, ids) && multiset(d) == multiset(e)
        ensures SameAccepted(grant, orderKey, d, e)
      {
        NoTiesSuffice(grant, orderKey, ids, d, e);
      }
    } else {
      var x, y :| x in ids && y in ids && x != y && Tied(grant, orderKey, x, y);
      TiesRefute(grant, orderKey, ids, x, y, ['x'], ['y']);
    }
  }

  // ------------------------------------------------------------ fates in terms of the ids

  ghost predicate Returned(d: Dict<string>, id: string) {
    exists i :: 0 <= i < |d| && d[i].0 == id
  }

  /** `id` was not granted, but the file it lives in was. */
  ghost predicate InGrantedFile(grant: seq<string>, id: string, file: string) {
    id !in grant && file in grant && LivesIn(id, file)
  }

  ghost predicate OutOfGrant(grant: seq<string>, id: string) {
    id !in grant && forall file :: LivesIn(id, file) ==> file !in grant
  }

  lemma FileIsWhole(id: string)
    ensures IsWholeFile(FilePath(id)) && LivesIn(id, FilePath(id))
  {
    FilePathIs(id, FilePath(id));
    var file := FilePath(id);
    forall k | 0 <= k < |file| ensures !SeparatorAt(file, k) {
      assert !SeparatorAt(id, k);
    }
    FirstSeparator(file, 0, |file|);
  }

  lemma FateIs(grant: seq<string>, id: string, file: string)
    ensures FateOf(grant, id) == AsItself <==> id in grant
    ensures FateOf(grant, id) == FoldedInto(file) <==> InGrantedFile(grant, id, file)
    ensures FateOf(grant, id) == Dropped <==> OutOfGrant(grant, id)
  {
    FileIsWhole(id);
    FilePathIs(id, file);
    forall other | LivesIn(id, other) ensures other == FilePath(id) {
      FilePathIs(id, other);
    }
  }

  /** Exactly the returned ids are reported as dropped that were not granted and live in no granted
      file. */
  lemma DroppedExactly(grant: seq<string>, d: Dict<string>, id: string)
    ensures id in DroppedBelow(grant, d, |d|) <==> Returned(d, id) && OutOfGrant(grant, id)
  {
    FateIs(grant, id, "");
  }

  function IdOf(e: (string, string)): string {
    e.0
  }

  ghost function IsOut(grant: seq<string>): ((string, string)) -> bool {
    (e: (string, string)) => OutOfGrant(grant, e.0)
  }

  /** They are reported in the order in which they were returned. */
  lemma {:induction false} DroppedInOrder(grant: seq<string>, d: Dict<string>, n: nat)
    requires n <= |d|
    ensures DroppedBelow(grant, d, n) == Map(IdOf, Filter(d[..n], IsOut(grant)))
  {
    if n > 0 {
      DroppedInOrder(grant, d, n - 1);
      FateIs(grant, d[n - 1].0, "");
      assert d[..n] == d[..n - 1] + [d[n - 1]];
      FilterOneMore(d[..n - 1], d[n - 1], IsOut(grant));
      MapOfOptional(IdOf, Filter(d[..n - 1], IsOut(grant)), d[n - 1], IsOut(grant)(d[n - 1]));
    }
  }

  /** Entry `i` is returned for a granted file it lives in. */
  ghost predicate FoldsAt(grant: seq<string>, d: Dict<string>, file: string, i: int) {
    0 <= i < |d| && InGrantedFile(grant, d[i].0, file)
  }

  lemma {:induction false} PartsOrNone(grant: seq<string>, orderKey: OrderKey, d: Dict<string>, n: nat, file: string)
    requires n <= |d|
    ensures Parts(grant, orderKey, d, n, file) != [] <==> exists i :: i < n && FoldsAt(grant, d, file, i)
  {
    if n > 0 {
      PartsOrNone(grant, orderKey, d, n - 1, file);
      FateIs(grant, d[n - 1].0, file);
      if i :| i < n && FoldsAt(grant, d, file, i) {
        assert i < n - 1 || i == n - 1;
      }
      if FoldsAt(grant, d, file, n - 1) {
        assert Parts(grant, orderKey, d, n, file) != [];
      }
    }
  }

  /** An id is accepted exactly when it was granted and was itself returned, or some returned id lives
      in it that was not granted; its own source wins. */
  lemma AcceptedExactly(grant: seq<string>, orderKey: OrderKey, d: Dict<string>, id: string)
    ensures AcceptedSource(grant, orderKey, d, id).Some? <==>
      id in grant && (Returned(d, id) || exists i :: FoldsAt(grant, d, id, i))
    ensures DistinctKeys(d) ==>
      forall i :: 0 <= i < |d| && d[i].0 == id && id in grant ==> AcceptedSource(grant, orderKey, d, id) == Some(d[i].1)
  {
    PartsOrNone(grant, orderKey, d, |d|, id);
    if DistinctKeys(d) {
      forall i | 0 <= i < |d| && d[i].0 == id && id in grant ensures AcceptedSource(grant, orderKey, d, id) == Some(d[i].1) {
        DirectIsReturned(grant, d, |d|, i);
      }
    }
  }

  /** A returned id that was not granted, but lives in a granted file, ends up in that file, unless
      the file itself was returned. */
  lemma FragmentIsKept(grant: seq<string>, orderKey: OrderKey, d: Dict<string>, file: string, i: nat)
    requires DistinctKeys(d) && FoldsAt(grant, d, file, i)
    ensures AcceptedSource(grant, orderKey, d, file).Some?
    ensures !Returned(d, file) ==> exists r :: (
      IsStripped(d[i].1, c => c == '\n', r) && Contains(AcceptedSource(grant, orderKey, d, file).value, r))
  {
    FateIs(grant, d[i].0, file);
    EveryIdHasOneFate(grant, orderKey, d, i);
    StripBoth(d[i].1, c => c == '\n');
  }

  // ------------------------------------------------------------ the text of a folded file

  /** Of two returned ids of one file, the one whose source comes first: headers lead, then ids with a
      known order by that order, then the others; otherwise as they were returned. */
  ghost predicate ComesFirst(orderKey: OrderKey, d: Dict<string>, i: int, j: int)
    requires 0 <= i < |d| && 0 <= j < |d|
  {
    if IsHeader(d[i].0) || IsHeader(d[j].0) then
      IsHeader(d[i].0) && (IsHeader(d[j].0) ==> i < j)
    else match (orderKey(d[i].0), orderKey(d[j].0))
      case (Some(a), Some(b)) => a < b || (a == b && i < j)
      case (Some(_), None) => true
      case (None, Some(_)) => false
      case (None, None) => i < j
  }

  lemma ComesFirstIsBefore(orderKey: OrderKey, d: Dict<string>, i: nat, j: nat)
    requires i < |d| && j < |d|
    ensures ComesFirst(orderKey, d, i, j) <==>
      Before(FoldOrder(orderKey, d[i].0, i, d[i].1), FoldOrder(orderKey, d[j].0, j, d[j].1))
  {
  }

  /** `at` lists the entries that fold into `file`, each once, and in order. */
  ghost predicate FoldingOrder(grant: seq<string>, orderKey: OrderKey, d: Dict<string>, file: string, at: seq<int>) {
    && (forall i :: i in at <==> FoldsAt(grant, d, file, i))
    && forall k, l :: 0 <= k < l < |at| ==> 0 <= at[k] < |d| && 0 <= at[l] < |d| && ComesFirst(orderKey, d, at[k], at[l])
  }

  /** `text` is what the entries at `at` make, each without line feeds around it, one blank line
      between two of them, and a line feed at the end. */
  ghost predicate FoldedText(d: Dict<string>, at: seq<int>, text: string) {
    exists sources: seq<string> ::
      && |sources| == |at| && text == Join("\n\n", sources) + "\n"
      && forall k :: 0 <= k < |at| ==> 0 <= at[k] < |d| && IsStripped(d[at[k]].1, c => c == '\n', sources[k])
  }

  function IndexOf(part: Part): int {
    part.index
  }

  ghost predicate PartAt(grant: seq<string>, orderKey: OrderKey, d: Dict<string>, file: string, p: Part) {
    && p.index < |d| && InGrantedFile(grant, d[p.index].0, file)
    && p == FoldOrder(orderKey, d[p.index].0, p.index, d[p.index].1)
  }

  /** The entries behind some parts. */
  ghost predicate PartsOf(grant: seq<string>, orderKey: OrderKey, d: Dict<string>, file: string, parts: seq<Part>) {
    && (forall p :: p in parts ==> PartAt(grant, orderKey, d, file, p))
    && (forall i :: FoldsAt(grant, d, file, i) ==> FoldOrder(orderKey, d[i].0, i, d[i].1) in parts)
    && Distinct(parts)
  }

  lemma {:induction false} PartsAreDistinct(grant: seq<string>, orderKey: OrderKey, d: Dict<string>, n: nat, file: string)
    requires n <= |d|
    ensures Distinct(Parts(grant, orderKey, d, n, file))
  {
    if n > 0 {
      PartsAreDistinct(grant, orderKey, d, n - 1, file);
      var earlier := Parts(grant, orderKey, d, n - 1, file);
      var part := FoldOrder(orderKey, d[n - 1].0, n - 1, d[n - 1].1);
      if part in earlier {
        PartsAreReturned(grant, orderKey, d, n - 1, file, part);
      }
    }
  }

  lemma PartsAreOf(grant: seq<string>, orderKey: OrderKey, d: Dict<string>, file: string)
    ensures PartsOf(grant, orderKey, d, file, Parts(grant, orderKey, d, |d|, file))
  {
    var parts := Parts(grant, orderKey, d, |d|, file);
    PartsAreDistinct(grant, orderKey, d, |d|, file);
    forall p | p in parts ensures PartAt(grant, orderKey, d, file, p) {
      PartsAreReturned(grant, orderKey, d, |d|, file, p);
      FateIs(grant, d[p.index].0, file);
    }
    forall i | FoldsAt(grant, d, file, i) ensures FoldOrder(orderKey, d[i].0, i, d[i].1) in parts {
      FateIs(grant, d[i].0, file);
      PartsNonempty(grant, orderKey, d, |d|, file);
    }
  }

  lemma SortedPartsOf(grant: seq<string>, orderKey: OrderKey, d: Dict<string>, file: string, parts: seq<Part>)
    requires PartsOf(grant, orderKey, d, file, parts)
    ensures PartsOf(grant, orderKey, d, file, Sort(parts, Before)) && Sorted(Sort(parts, Before), Before)
  {
    var sorted := Sort(parts, Before);
    SortedParts(parts);
    DistinctOfPermutation(parts, sorted);
    forall p ensures p in sorted <==> p in parts {
      assert p in sorted <==> p in multiset(sorted);
      assert p in parts <==> p in multiset(parts);
    }
  }

  lemma SortedIndices(grant: seq<string>, orderKey: OrderKey, d: Dict<string>, file: string, sorted: seq<Part>)
    requires PartsOf(grant, orderKey, d, file, sorted) && Sorted(sorted, Before)
    ensures FoldingOrder(grant, orderKey, d, file, Map(IndexOf, sorted))
  {
    var at := Map(IndexOf, sorted);
    forall i ensures i in at <==> FoldsAt(grant, d, file, i) {
      if i in at {
        var k :| 0 <= k < |at| && at[k] == i;
        assert sorted[k] in sorted;
      }
      if FoldsAt(grant, d, file, i) {
        var k :| 0 <= k < |sorted| && sorted[k] == FoldOrder(orderKey, d[i].0, i, d[i].1);
        assert at[k] == i;
      }
    }
    forall k, l | 0 <= k < l < |at| ensures 0 <= at[k] < |d| && 0 <= at[l] < |d| && ComesFirst(orderKey, d, at[k], at[l]) {
      assert sorted[k] in sorted && sorted[l] in sorted;
      assert !Before(sorted[l], sorted[k]) && sorted[k] != sorted[l];
      ComesFirstIsBefore(orderKey, d, at[k], at[l]);
    }
  }

  lemma SortedText(grant: seq<string>, orderKey: OrderKey, d: Dict<string>, file: string, sorted: seq<Part>)
    requires PartsOf(grant, orderKey, d, file, sorted)
    ensures FoldedText(d, Map(IndexOf, sorted), Concatenate(sorted))
  {
    var sources, at := Map(SourceOf, sorted), Map(IndexOf, sorted);
    forall k | 0 <= k < |at| ensures 0 <= at[k] < |d| && IsStripped(d[at[k]].1, c => c == '\n', sources[k]) {
      assert sorted[k] in sorted;
      StripBoth(sorted[k].source, c => c == '\n');
    }
  }

  /** When a file was not itself returned, the sources of the returned ids that live in it make its
      text: all of them, each once, in order, joined by blank lines. */
  lemma FoldedExactly(grant: seq<string>, orderKey: OrderKey, d: Dict<string>, file: string)
    requires file in grant && !Returned(d, file) && exists i :: FoldsAt(grant, d, file, i)
    ensures AcceptedSource(grant, orderKey, d, file).Some?
    ensures exists at :: (
      FoldingOrder(grant, orderKey, d, file, at) && FoldedText(d, at, AcceptedSource(grant, orderKey, d, file).value))
  {
    var parts := Parts(grant, orderKey, d, |d|, file);
    PartsOrNone(grant, orderKey, d, |d|, file);
    PartsAreOf(grant, orderKey, d, file);
    SortedPartsOf(grant, orderKey, d, file, parts);
    var sorted := Sort(parts, Before);
    SortedIndices(grant, orderKey, d, file, sorted);
    SortedText(grant, orderKey, d, file, sorted);
    assert AcceptedSource(grant, orderKey, d, file) == Some(Concatenate(sorted));
  }
}
