/** Reattaching kernel postconditions to a reviewed repair plan. */
module Cascade {
  import opened Sequences
  import opened Graph
  import opened Options
  import opened NodeIds
  import opened Plan

  // ------------------------------------------------------------------ reachability

  /** What the worklist of `DependsTransitively` has established about one dependency. */
  ghost predicate Handled(tasks: map<string, SubTask>, pending: seq<string>, seen: set<string>, wanted: string, d: string) {
    d in pending || d in seen || (d !in tasks && d != wanted)
  }

  ghost predicate Expanded(tasks: map<string, SubTask>, pending: seq<string>, seen: set<string>, wanted: string, id: string) {
    id in tasks && forall d :: d in tasks[id].dependsOn ==> Handled(tasks, pending, seen, wanted, d)
  }

  /** Depth-first search over `depends_on`; ids the plan does not know are dead ends. */
  method DependsTransitively(tasks: map<string, SubTask>, start: string, wanted: string) returns (found: bool)
    requires start in tasks
    ensures found <==> Reaches(DependencyGraph(tasks), start, wanted)
  {
    ghost var g := DependencyGraph(tasks);
    var pending := tasks[start].dependsOn;
    var seen: set<string> := {};
    forall d | d in pending ensures Reaches(g, start, d) {
      EdgeReaches(g, start, d);
    }
    while pending != []
      invariant forall d :: d in pending ==> Reaches(g, start, d)
      invariant seen <= tasks.Keys && wanted !in seen
      invariant forall s :: s in seen ==> Reaches(g, start, s)
      invariant Expanded(tasks, pending, seen, wanted, start)
      invariant forall s :: s in seen ==> Expanded(tasks, pending, seen, wanted, s)
      decreases |tasks.Keys - seen|, |pending|
    {
      var current := pending[|pending| - 1];
      ghost var before, seenBefore := pending, seen;
      pending := pending[..|pending| - 1];
      assert before == pending + [current];
      if current == wanted {
        return true;
      }
      if current !in seen && current in tasks {
        seen := seen + {current};
        pending := pending + tasks[current].dependsOn;
        forall d | d in tasks[current].dependsOn ensures Reaches(g, start, d) {
          EdgeReaches(g, current, d);
          ReachesTransitive(g, start, current, d);
        }
        assert tasks.Keys - seen < tasks.Keys - seenBefore by {
          assert current in tasks.Keys - seenBefore;
        }
        SmallerCard(tasks.Keys - seen, tasks.Keys - seenBefore);
      }
    }
    if Reaches(g, start, wanted) {
      var p :| WalkBetween(g, p, start, wanted);
      SearchMissesNothing(tasks, seen, wanted, p);
    }
    return false;
  }

  lemma SmallerCard<T>(a: set<T>, b: set<T>)
    requires a < b
    ensures |a| < |b|
  {
    assert b == a + (b - a);
  }

  /** Once the worklist is empty, no walk from an expanded id can end at `wanted`. */
  lemma {:induction false} SearchMissesNothing(tasks: map<string, SubTask>, seen: set<string>, wanted: string, p: seq<string>)
    requires wanted !in seen
    requires forall s :: s in seen ==> Expanded(tasks, [], seen, wanted, s)
    requires |p| >= 2 && Expanded(tasks, [], seen, wanted, p[0])
    requires WalkBetween(DependencyGraph(tasks), p, p[0], wanted)
    ensures false
  {
    var g := DependencyGraph(tasks);
    assert Edge(g, p[0], p[1]);
    assert Handled(tasks, [], seen, wanted, p[1]);
    if |p| > 2 {
      assert Edge(g, p[1], p[2]);
      assert WalkBetween(g, p[1..], p[1], wanted);
      SearchMissesNothing(tasks, seen, wanted, p[1..]);
    }
  }

  // ------------------------------------------------------------ preserving obligations

  function ObligationsOf(detected: seq<SubTask>): seq<RepairObligation> {
    if detected == [] then [] else detected[0].repairObligations + ObligationsOf(detected[1..])
  }

  /** Whether a task writes the caller file or the provider file of an obligation. */
  predicate IsWriter(task: SubTask, o: RepairObligation) {
    Writes(task, o.file) || Writes(task, o.definingFile)
  }

  ghost predicate ValidIndices(plan: seq<SubTask>, indices: seq<int>) {
    forall k :: 0 <= k < |indices| ==> 0 <= indices[k] < |plan|
  }

  /** The indices below `n` of the writers of `o`, in increasing order. */
  function WritersBelow(plan: seq<SubTask>, o: RepairObligation, n: nat): (w: seq<int>)
    requires n <= |plan|
    ensures forall i :: i in w <==> 0 <= i < n && IsWriter(plan[i], o)
    ensures forall k :: 0 <= k < |w| ==> 0 <= w[k] < n
    ensures forall k, l :: 0 <= k < l < |w| ==> w[k] < w[l]
  {
    if n == 0 then []
    else WritersBelow(plan, o, n - 1) + if IsWriter(plan[n - 1], o) then [n - 1] else []
  }

  function Writers(plan: seq<SubTask>, o: RepairObligation): seq<int> {
    WritersBelow(plan, o, |plan|)
  }

  /** Whether another candidate already depends on candidate `index`. */
  ghost predicate IsUpstream(plan: seq<SubTask>, candidates: seq<int>, index: int)
    requires ValidIndices(plan, candidates) && 0 <= index < |plan|
  {
    exists k :: 0 <= k < |candidates| && candidates[k] != index &&
      Reaches(GraphOf(plan), plan[candidates[k]].taskId, plan[index].taskId)
  }

  /** Those of the first `n` candidates that no other candidate depends on. */
  ghost function Sinks(plan: seq<SubTask>, candidates: seq<int>, n: nat): (sinks: seq<int>)
    requires ValidIndices(plan, candidates) && n <= |candidates|
    ensures ValidIndices(plan, sinks)
    ensures forall i :: i in sinks <==> i in candidates[..n] && !IsUpstream(plan, candidates, i)
  {
    if n == 0 then []
    else
      assert candidates[..n] == candidates[..n - 1] + [candidates[n - 1]];
      Sinks(plan, candidates, n - 1) +
      if IsUpstream(plan, candidates, candidates[n - 1]) then [] else [candidates[n - 1]]
  }

  /** The ids of all candidates but `index`. */
  function Required(plan: seq<SubTask>, candidates: seq<int>, index: int): (ids: seq<string>)
    requires ValidIndices(plan, candidates)
    ensures forall id :: id in ids <==>
      exists k :: 0 <= k < |candidates| && candidates[k] != index && plan[candidates[k]].taskId == id
  {
    if candidates == [] then []
    else
      assert forall k :: 1 <= k < |candidates| ==> candidates[k] == candidates[1..][k - 1];
      (if candidates[0] != index then [plan[candidates[0]].taskId] else []) + Required(plan, candidates[1..], index)
  }

  /** A task with more dependencies and, unless it has it already, one more obligation. */
  function Reattach(task: SubTask, required: seq<string>, o: RepairObligation): SubTask {
    task.(dependsOn := Dedup(task.dependsOn + required),
          repairObligations := if o in task.repairObligations then task.repairObligations
                               else task.repairObligations + [o])
  }

  /** One obligation: the last sink among the writers takes it on. */
  ghost function Place(plan: seq<SubTask>, o: RepairObligation): Option<seq<SubTask>> {
    var candidates := Writers(plan, o);
    var sinks := Sinks(plan, candidates, |candidates|);
    if sinks == [] then None
    else
      var index := sinks[|sinks| - 1];
      Some(plan[index := Reattach(plan[index], Required(plan, candidates, index), o)])
  }

  ghost function Preserve(obligations: seq<RepairObligation>, plan: seq<SubTask>): Option<seq<SubTask>> {
    if obligations == [] then Some(plan)
    else
      var next := Place(plan, obligations[0]);
      if next.None? then None else Preserve(obligations[1..], next.value)
  }

  method PreserveObligations(detected: seq<SubTask>, approved: seq<SubTask>) returns (r: Option<seq<SubTask>>)
    ensures r == Preserve(ObligationsOf(detected), approved)
  {
    var obligations := ObligationsOf(detected);
    var result := approved;
    for k := 0 to |obligations|
      invariant Preserve(obligations, approved) == Preserve(obligations[k..], result)
    {
      assert obligations[k..][0] == obligations[k] && obligations[k..][1..] == obligations[k + 1..];
      var placed := PlaceObligation(result, obligations[k]);
      if placed.None? {
        return None;
      }
      result := placed.value;
    }
    return Some(result);
  }

  method PlaceObligation(plan: seq<SubTask>, o: RepairObligation) returns (r: Option<seq<SubTask>>)
    ensures r == Place(plan, o)
  {
    var candidates := Writers(plan, o);
    if candidates == [] {
      return None;
    }
    var byId := ById(plan);
    var sinks: seq<int> := [];
    for c := 0 to |candidates|
      invariant sinks == Sinks(plan, candidates, c)
    {
      var upstream := AnotherDependsOn(plan, byId, candidates, candidates[c]);
      if !upstream {
        sinks := sinks + [candidates[c]];
      }
    }
    if sinks == [] {
      return None;
    }
    var index := sinks[|sinks| - 1];
    var required := Required(plan, candidates, index);
    return Some(plan[index := Reattach(plan[index], required, o)]);
  }

  method AnotherDependsOn(plan: seq<SubTask>, byId: map<string, SubTask>, candidates: seq<int>, index: int) returns (upstream: bool)
    requires byId == ById(plan)
    requires ValidIndices(plan, candidates) && 0 <= index < |plan|
    ensures upstream <==> IsUpstream(plan, candidates, index)
  {
    for k := 0 to |candidates|
      invariant forall l :: 0 <= l < k && candidates[l] != index ==>
        !Reaches(GraphOf(plan), plan[candidates[l]].taskId, plan[index].taskId)
    {
      var other := candidates[k];
      if index != other {
        ByIdKeys(plan, plan[other].taskId);
        var depends := DependsTransitively(byId, plan[other].taskId, plan[index].taskId);
        if depends {
          return true;
        }
      }
    }
    return false;
  }

  // ------------------------------------------------------------ what is preserved

  /** `later` is `plan` with dependencies and obligations added and nothing else changed. */
  ghost predicate Extends(plan: seq<SubTask>, later: seq<SubTask>) {
    |later| == |plan| &&
    forall i :: 0 <= i < |plan| ==> TaskExtends(plan[i], later[i])
  }

  ghost predicate TaskExtends(task: SubTask, later: SubTask) {
    && later == task.(dependsOn := later.dependsOn, repairObligations := later.repairObligations)
    && task.repairObligations <= later.repairObligations
    && (forall d :: d in task.dependsOn ==> d in later.dependsOn)
    && (Distinct(task.dependsOn) ==> Distinct(later.dependsOn))
  }

  /** Writer `i` carries the obligation and runs after every other writer. */
  ghost predicate CarriedBy(plan: seq<SubTask>, o: RepairObligation, i: int) {
    && i in Writers(plan, o)
    && o in plan[i].repairObligations
    && Distinct(plan[i].dependsOn)
    && forall j :: j in Writers(plan, o) && j != i ==> plan[j].taskId in plan[i].dependsOn
  }

  ghost predicate Discharged(plan: seq<SubTask>, o: RepairObligation) {
    exists i :: CarriedBy(plan, o, i)
  }

  lemma WriterStable(task: SubTask, later: SubTask, o: RepairObligation)
    requires TaskExtends(task, later)
    ensures IsWriter(task, o) <==> IsWriter(later, o)
  {
    assert task.targetNodes == later.targetNodes;
  }

  lemma {:induction false} WritersStable(plan: seq<SubTask>, later: seq<SubTask>, o: RepairObligation, n: nat)
    requires Extends(plan, later) && n <= |plan|
    ensures WritersBelow(plan, o, n) == WritersBelow(later, o, n)
  {
    if n > 0 {
      WritersStable(plan, later, o, n - 1);
      WriterStable(plan[n - 1], later[n - 1], o);
    }
  }

  /** No later change undoes an obligation that is in place. */
  lemma DischargedStable(plan: seq<SubTask>, later: seq<SubTask>, o: RepairObligation)
    requires Extends(plan, later) && Discharged(plan, o)
    ensures Discharged(later, o)
  {
    var i :| CarriedBy(plan, o, i);
    WritersStable(plan, later, o, |plan|);
    assert CarriedBy(later, o, i);
  }

  lemma ExtendsTransitive(a: seq<SubTask>, b: seq<SubTask>, c: seq<SubTask>)
    requires Extends(a, b) && Extends(b, c)
    ensures Extends(a, c)
  {
    forall i | 0 <= i < |a| ensures TaskExtends(a[i], c[i]) {
      assert TaskExtends(a[i], b[i]) && TaskExtends(b[i], c[i]);
    }
  }

  /** Among the writers in an acyclic plan there is one no other writer depends on. */
  lemma {:induction false} SinksNonempty(plan: seq<SubTask>, candidates: seq<int>)
    requires Acyclic(GraphOf(plan))
    requires ValidIndices(plan, candidates) && candidates != []
    requires forall k, l :: k in candidates && l in candidates && plan[k].taskId == plan[l].taskId ==> k == l
    ensures Sinks(plan, candidates, |candidates|) != []
  {
    var ids := set k | k in candidates :: plan[k].taskId;
    assert plan[candidates[0]].taskId in ids;
    var sink := SinkExists(GraphOf(plan), ids);
    var i :| i in candidates && plan[i].taskId == sink;
    assert candidates[..|candidates|] == candidates;
    assert !IsUpstream(plan, candidates, i);
  }

  /** In an acyclic plan, the writer an obligation is placed on. */
  lemma PlacedOn(plan: seq<SubTask>, o: RepairObligation) returns (index: int)
    requires DistinctIds(plan) && Acyclic(GraphOf(plan)) && Writers(plan, o) != []
    ensures index in Writers(plan, o) && 0 <= index < |plan|
    ensures !IsUpstream(plan, Writers(plan, o), index)
    ensures Place(plan, o) ==
      Some(plan[index := Reattach(plan[index], Required(plan, Writers(plan, o), index), o)])
  {
    var candidates := Writers(plan, o);
    SinksNonempty(plan, candidates);
    var sinks := Sinks(plan, candidates, |candidates|);
    assert candidates[..|candidates|] == candidates;
    index := sinks[|sinks| - 1];
    assert index in sinks;
  }

  /** What placing one obligation does to an acyclic plan. */
  lemma PlaceFacts(plan: seq<SubTask>, o: RepairObligation)
    requires DistinctIds(plan) && Acyclic(GraphOf(plan))
    ensures Place(plan, o).None? <==> Writers(plan, o) == []
    ensures Place(plan, o).Some? ==>
      && Extends(plan, Place(plan, o).value)
      && DistinctIds(Place(plan, o).value)
      && Acyclic(GraphOf(Place(plan, o).value))
      && Discharged(Place(plan, o).value, o)
  {
    if Writers(plan, o) != [] {
      var index := PlacedOn(plan, o);
      var required := Required(plan, Writers(plan, o), index);
      var next := plan[index := Reattach(plan[index], required, o)];
      ReattachFacts(plan, next, o, index, required);
      PlaceKeepsAcyclic(plan, next, Writers(plan, o), index, required);
    }
  }

  lemma ReattachFacts(plan: seq<SubTask>, next: seq<SubTask>, o: RepairObligation, index: int, required: seq<string>)
    requires index in Writers(plan, o) && 0 <= index < |plan|
    requires required == Required(plan, Writers(plan, o), index)
    requires next == plan[index := Reattach(plan[index], required, o)]
    ensures Extends(plan, next)
    ensures Discharged(next, o)
  {
    assert TaskExtends(plan[index], next[index]);
    WritersStable(plan, next, o, |plan|);
    var w := Writers(plan, o);
    forall j | j in w && j != index ensures next[j].taskId in next[index].dependsOn {
      var k :| 0 <= k < |w| && w[k] == j;
      assert plan[j].taskId in required;
    }
    assert CarriedBy(next, o, index);
  }

  lemma PlaceKeepsAcyclic(plan: seq<SubTask>, next: seq<SubTask>, candidates: seq<int>, index: nat, required: seq<string>)
    requires DistinctIds(plan) && Acyclic(GraphOf(plan))
    requires ValidIndices(plan, candidates) && index in candidates
    requires !IsUpstream(plan, candidates, index)
    requires required == Required(plan, candidates, index)
    requires |next| == |plan| && forall i :: 0 <= i < |plan| ==> next[i].taskId == plan[i].taskId
    requires forall i :: 0 <= i < |plan| && i != index ==> next[i] == plan[i]
    requires forall d :: d in next[index].dependsOn ==> d in plan[index].dependsOn || d in required
    requires forall d :: d in plan[index].dependsOn ==> d in next[index].dependsOn
    ensures Acyclic(GraphOf(next))
  {
    var g, h := GraphOf(plan), GraphOf(next);
    var t := plan[index].taskId;
    forall x, y | x != t ensures Edge(g, x, y) <==> Edge(h, x, y) {
      ByIdKeys(plan, x);
      ByIdKeys(next, x);
      if x in g || x in h {
        var i: nat :| i < |plan| && (plan[i].taskId == x || next[i].taskId == x);
        EdgeOfMember(plan, i, y);
        EdgeOfMember(next, i, y);
      }
    }
    forall y | Edge(h, t, y) ensures Edge(g, t, y) || y in required {
      EdgeOfMember(plan, index, y);
      EdgeOfMember(next, index, y);
    }
    var extra := set d | d in required;
    assert AddsEdges(g, h, t, extra);
    AddingEdgesKeepsAcyclic(g, h, t, extra);
  }

  /** A writer that depends on all the others is the only one nothing else depends on. */
  lemma CarrierIsPlacedOn(plan: seq<SubTask>, o: RepairObligation, i: int, index: int)
    requires DistinctIds(plan) && Acyclic(GraphOf(plan)) && CarriedBy(plan, o, i)
    requires index in Writers(plan, o) && !IsUpstream(plan, Writers(plan, o), index)
    ensures index == i
  {
    if index != i {
      EdgeOfMember(plan, i, plan[index].taskId);
      EdgeReaches(GraphOf(plan), plan[i].taskId, plan[index].taskId);
    }
  }

  /** A writer that carries the obligation and all the edges is left as it is. */
  lemma ReattachIdempotent(plan: seq<SubTask>, o: RepairObligation, i: int)
    requires CarriedBy(plan, o, i)
    ensures Reattach(plan[i], Required(plan, Writers(plan, o), i), o) == plan[i]
  {
    var w := Writers(plan, o);
    var required := Required(plan, w, i);
    forall d | d in required ensures d in plan[i].dependsOn {
      var k :| 0 <= k < |w| && w[k] != i && plan[w[k]].taskId == d;
      assert w[k] in w;
    }
    DedupAbsorbs(plan[i].dependsOn, required);
    DedupDistinct(plan[i].dependsOn);
  }

  lemma PlaceOfCarried(plan: seq<SubTask>, o: RepairObligation, i: int)
    requires DistinctIds(plan) && Acyclic(GraphOf(plan)) && CarriedBy(plan, o, i)
    ensures Place(plan, o) == Some(plan)
  {
    var index := PlacedOn(plan, o);
    CarrierIsPlacedOn(plan, o, i, index);
    ReattachIdempotent(plan, o, i);
    assert plan[i := plan[i]] == plan;
  }

  /** Placing an obligation that is already in place changes nothing. */
  lemma PlaceIdempotent(plan: seq<SubTask>, o: RepairObligation)
    requires DistinctIds(plan) && Acyclic(GraphOf(plan)) && Discharged(plan, o)
    ensures Place(plan, o) == Some(plan)
  {
    var i :| CarriedBy(plan, o, i);
    PlaceOfCarried(plan, o, i);
  }

  // ------------------------------------------------------------ main results

  /** Some obligation has no task writing its caller or its provider file. */
  ghost predicate Unwritten(obligations: seq<RepairObligation>, plan: seq<SubTask>) {
    exists o :: o in obligations && Writers(plan, o) == []
  }

  lemma UnwrittenStep(obligations: seq<RepairObligation>, plan: seq<SubTask>, later: seq<SubTask>)
    requires obligations != [] && Extends(plan, later)
    ensures Unwritten(obligations, plan) <==> Writers(plan, obligations[0]) == [] || Unwritten(obligations[1..], later)
  {
    assert obligations == [obligations[0]] + obligations[1..];
    forall o ensures Writers(plan, o) == Writers(later, o) {
      WritersStable(plan, later, o, |plan|);
    }
  }

  /** On an acyclic plan with distinct ids, the rewrite fails exactly when some obligation has no
      writer. */
  lemma {:induction false} PreserveFailsExactly(obligations: seq<RepairObligation>, plan: seq<SubTask>)
    requires DistinctIds(plan) && Acyclic(GraphOf(plan))
    ensures Preserve(obligations, plan).None? <==> Unwritten(obligations, plan)
  {
    if obligations != [] {
      var o := obligations[0];
      PlaceFacts(plan, o);
      if Writers(plan, o) == [] {
        assert o in obligations;
      } else {
        var next := Place(plan, o).value;
        PreserveFailsExactly(obligations[1..], next);
        UnwrittenStep(obligations, plan, next);
      }
    }
  }

  /** A successful rewrite yields an acyclic extension of the plan. */
  lemma {:induction false} PreserveKeepsAcyclic(obligations: seq<RepairObligation>, plan: seq<SubTask>)
    requires DistinctIds(plan) && Acyclic(GraphOf(plan))
    requires Preserve(obligations, plan).Some?
    ensures
      var later := Preserve(obligations, plan).value;
      Extends(plan, later) && DistinctIds(later) && Acyclic(GraphOf(later))
  {
    if obligations != [] {
      PlaceFacts(plan, obligations[0]);
      var next := Place(plan, obligations[0]).value;
      PreserveKeepsAcyclic(obligations[1..], next);
      ExtendsTransitive(plan, next, Preserve(obligations[1..], next).value);
    }
  }

  /** Every obligation ends up on a writer that depends on all the other writers. */
  lemma {:induction false} PreserveDischarges(obligations: seq<RepairObligation>, plan: seq<SubTask>)
    requires DistinctIds(plan) && Acyclic(GraphOf(plan))
    requires Preserve(obligations, plan).Some?
    ensures forall o :: o in obligations ==> Discharged(Preserve(obligations, plan).value, o)
  {
    if obligations != [] {
      PlaceFacts(plan, obligations[0]);
      var next := Place(plan, obligations[0]).value;
      PreserveDischarges(obligations[1..], next);
      PreserveKeepsAcyclic(obligations[1..], next);
      DischargedStable(next, Preserve(obligations, plan).value, obligations[0]);
    }
  }

  lemma {:induction false} PreserveOfDischarged(obligations: seq<RepairObligation>, plan: seq<SubTask>)
    requires DistinctIds(plan) && Acyclic(GraphOf(plan))
    requires forall o :: o in obligations ==> Discharged(plan, o)
    ensures Preserve(obligations, plan) == Some(plan)
  {
    if obligations != [] {
      PlaceIdempotent(plan, obligations[0]);
      PreserveOfDischarged(obligations[1..], plan);
    }
  }

  /** Running the rewrite on its own output changes nothing. */
  lemma {:induction false} PreserveIdempotent(obligations: seq<RepairObligation>, plan: seq<SubTask>)
    requires DistinctIds(plan) && Acyclic(GraphOf(plan))
    requires Preserve(obligations, plan).Some?
    ensures Preserve(obligations, Preserve(obligations, plan).value) == Preserve(obligations, plan)
  {
    PreserveKeepsAcyclic(obligations, plan);
    PreserveDischarges(obligations, plan);
    PreserveOfDischarged(obligations, Preserve(obligations, plan).value);
  }

  /** `d` is a writer of `o` other than task `i`, which is one too. */
  ghost predicate CoWriter(plan: seq<SubTask>, o: RepairObligation, i: int, d: string) {
    i in Writers(plan, o) && exists j :: j in Writers(plan, o) && j != i && plan[j].taskId == d
  }

  ghost predicate DependencyCalledFor(obligations: seq<RepairObligation>, plan: seq<SubTask>, i: int, d: string) {
    exists o :: o in obligations && CoWriter(plan, o, i, d)
  }

  lemma RequiredAreCoWriters(plan: seq<SubTask>, o: RepairObligation, index: int, d: string)
    requires index in Writers(plan, o) && d in Required(plan, Writers(plan, o), index)
    ensures CoWriter(plan, o, index, d)
  {
    var w := Writers(plan, o);
    var k :| 0 <= k < |w| && w[k] != index && plan[w[k]].taskId == d;
    assert w[k] in w;
  }

  lemma CoWriterStable(plan: seq<SubTask>, next: seq<SubTask>, o: RepairObligation, i: int, d: string)
    requires Extends(plan, next) && CoWriter(next, o, i, d)
    ensures CoWriter(plan, o, i, d)
  {
    WritersStable(plan, next, o, |plan|);
    var j :| j in Writers(next, o) && j != i && next[j].taskId == d;
    assert TaskExtends(plan[j], next[j]);
  }

  /** Every added dependency runs between two writers of one detected obligation. */
  lemma {:induction false} PreserveAddsOnlyCoWriters(obligations: seq<RepairObligation>, plan: seq<SubTask>, i: int, d: string)
    requires DistinctIds(plan) && Acyclic(GraphOf(plan)) && Preserve(obligations, plan).Some?
    requires 0 <= i < |plan|
    ensures |Preserve(obligations, plan).value| == |plan|
    ensures d in Preserve(obligations, plan).value[i].dependsOn ==>
      d in plan[i].dependsOn || DependencyCalledFor(obligations, plan, i, d)
  {
    if obligations != [] {
      var o, rest := obligations[0], obligations[1..];
      assert o in obligations;
      PlaceFacts(plan, o);
      var index := PlacedOn(plan, o);
      var next := Place(plan, o).value;
      PreserveAddsOnlyCoWriters(rest, next, i, d);
      if d in next[i].dependsOn {
        if d !in plan[i].dependsOn {
          assert d in Required(plan, Writers(plan, o), index);
          RequiredAreCoWriters(plan, o, index, d);
        }
      } else if d in Preserve(rest, next).value[i].dependsOn {
        var p :| p in rest && CoWriter(next, p, i, d);
        CoWriterStable(plan, next, p, i, d);
        assert p in obligations;
      }
    }
  }

  lemma ReattachAddsObligation(plan: seq<SubTask>, index: int, required: seq<string>, o: RepairObligation, i: int, p: RepairObligation)
    requires 0 <= index < |plan| && 0 <= i < |plan|
    requires p in plan[index := Reattach(plan[index], required, o)][i].repairObligations
    ensures p in plan[i].repairObligations || (p == o && i == index)
  {
  }

  lemma PlaceAddsObligation(plan: seq<SubTask>, o: RepairObligation, i: int, p: RepairObligation)
    requires DistinctIds(plan) && Acyclic(GraphOf(plan)) && Place(plan, o).Some?
    requires 0 <= i < |plan|
    ensures |Place(plan, o).value| == |plan|
    ensures p in Place(plan, o).value[i].repairObligations ==>
      p in plan[i].repairObligations || (p == o && i in Writers(plan, o))
  {
    PlaceFacts(plan, o);
    var index := PlacedOn(plan, o);
    if p in Place(plan, o).value[i].repairObligations {
      ReattachAddsObligation(plan, index, Required(plan, Writers(plan, o), index), o, i, p);
    }
  }

  /** Every added obligation is a detected one, placed on one of its writers. */
  lemma {:induction false} PreserveAddsOnlyDetected(obligations: seq<RepairObligation>, plan: seq<SubTask>, i: int, p: RepairObligation)
    requires DistinctIds(plan) && Acyclic(GraphOf(plan)) && Preserve(obligations, plan).Some?
    requires 0 <= i < |plan|
    ensures |Preserve(obligations, plan).value| == |plan|
    ensures p in Preserve(obligations, plan).value[i].repairObligations ==>
      p in plan[i].repairObligations || (p in obligations && i in Writers(plan, p))
  {
    if obligations != [] {
      var o, rest := obligations[0], obligations[1..];
      assert o in obligations;
      PlaceFacts(plan, o);
      PlaceAddsObligation(plan, o, i, p);
      var next := Place(plan, o).value;
      PreserveAddsOnlyDetected(rest, next, i, p);
      WritersStable(plan, next, p, |plan|);
      if p in rest {
        assert p in obligations;
      }
    }
  }

  // ------------------------------------------------------------ where an obligation is placed

  /** Some node that task `i` writes lies in the caller file or in the provider file. */
  ghost predicate WritesEither(plan: seq<SubTask>, o: RepairObligation, i: int) {
    0 <= i < |plan| && exists node :: node in plan[i].targetNodes && (FilePath(node) == o.file || FilePath(node) == o.definingFile)
  }

  /** A writer that no other writer depends on, directly or indirectly. */
  ghost predicate Downstream(plan: seq<SubTask>, o: RepairObligation, i: int) {
    && WritesEither(plan, o, i)
    && forall j :: WritesEither(plan, o, j) && j != i ==> !Reaches(GraphOf(plan), plan[j].taskId, plan[i].taskId)
  }

  ghost predicate IsLastDownstream(plan: seq<SubTask>, o: RepairObligation, i: int) {
    Downstream(plan, o, i) && forall j :: Downstream(plan, o, j) ==> j <= i
  }

  ghost predicate OtherWriter(plan: seq<SubTask>, o: RepairObligation, i: int, id: string) {
    exists j :: WritesEither(plan, o, j) && j != i && plan[j].taskId == id
  }

  /** `ids` are ids of writers other than task `i`, in the order of the plan. */
  ghost predicate InPlanOrder(plan: seq<SubTask>, o: RepairObligation, i: int, ids: seq<string>) {
    exists at: seq<int> ::
      && |at| == |ids| && (forall k :: 0 <= k < |ids| ==> WritesEither(plan, o, at[k]) && at[k] != i && plan[at[k]].taskId == ids[k])
      && forall k, l :: 0 <= k < l < |at| ==> at[k] < at[l]
  }

  /** `next` is `plan` with the obligation on the last task downstream of the other writers, which
      keeps its dependencies, each once, and gets those writers after them; no other task, and
      nothing else of this one, is changed. */
  ghost predicate PlacedLast(plan: seq<SubTask>, o: RepairObligation, i: int, next: seq<SubTask>) {
    && IsLastDownstream(plan, o, i)
    && |next| == |plan| && (forall j :: 0 <= j < |plan| && j != i ==> next[j] == plan[j])
    && next[i] == plan[i].(dependsOn := next[i].dependsOn, repairObligations := next[i].repairObligations)
    && next[i].repairObligations == plan[i].repairObligations + (if o in plan[i].repairObligations then [] else [o])
    && (forall id :: id in next[i].dependsOn <==> id in plan[i].dependsOn || OtherWriter(plan, o, i, id))
    && (exists ids :: InPlanOrder(plan, o, i, ids) && next[i].dependsOn == Dedup(plan[i].dependsOn + ids))
  }

  ghost predicate PlacedSomewhere(plan: seq<SubTask>, o: RepairObligation, next: seq<SubTask>) {
    exists i :: PlacedLast(plan, o, i, next)
  }

  ghost predicate CannotBePlaced(plan: seq<SubTask>, o: RepairObligation) {
    forall i :: !Downstream(plan, o, i)
  }

  lemma WriterWrites(plan: seq<SubTask>, o: RepairObligation, i: int)
    ensures i in Writers(plan, o) <==> WritesEither(plan, o, i)
  {
    if WritesEither(plan, o, i) {
      var node :| node in plan[i].targetNodes && (FilePath(node) == o.file || FilePath(node) == o.definingFile);
      var k :| 0 <= k < |plan[i].targetNodes| && plan[i].targetNodes[k] == node;
      assert IsWriter(plan[i], o);
    }
    if i in Writers(plan, o) {
      var file := if Writes(plan[i], o.file) then o.file else o.definingFile;
      var k :| 0 <= k < |plan[i].targetNodes| && FilePath(plan[i].targetNodes[k]) == file;
      assert plan[i].targetNodes[k] in plan[i].targetNodes;
    }
  }

  lemma SinksAreDownstream(plan: seq<SubTask>, o: RepairObligation, i: int)
    requires 0 <= i < |plan|
    ensures i in Writers(plan, o) && !IsUpstream(plan, Writers(plan, o), i) <==> Downstream(plan, o, i)
  {
    var w := Writers(plan, o);
    WriterWrites(plan, o, i);
    if i in w && !IsUpstream(plan, w, i) {
      forall j | WritesEither(plan, o, j) && j != i ensures !Reaches(GraphOf(plan), plan[j].taskId, plan[i].taskId) {
        WriterWrites(plan, o, j);
        var k :| 0 <= k < |w| && w[k] == j;
      }
    }
    if Downstream(plan, o, i) && IsUpstream(plan, w, i) {
      var k :| 0 <= k < |w| && w[k] != i && Reaches(GraphOf(plan), plan[w[k]].taskId, plan[i].taskId);
      assert w[k] in w;
      WriterWrites(plan, o, w[k]);
    }
  }

  lemma {:induction false} SinksAscend(plan: seq<SubTask>, candidates: seq<int>, n: nat)
    requires ValidIndices(plan, candidates) && n <= |candidates|
    requires forall k, l :: 0 <= k < l < |candidates| ==> candidates[k] < candidates[l]
    ensures forall k, l :: 0 <= k < l < |Sinks(plan, candidates, n)| ==> Sinks(plan, candidates, n)[k] < Sinks(plan, candidates, n)[l]
  {
    if n > 0 {
      SinksAscend(plan, candidates, n - 1);
      var before := Sinks(plan, candidates, n - 1);
      forall k | 0 <= k < |before| ensures before[k] < candidates[n - 1] {
        assert before[k] in candidates[..n - 1];
      }
    }
  }

  lemma LastIsGreatest(sinks: seq<int>, j: int)
    requires forall k, l :: 0 <= k < l < |sinks| ==> sinks[k] < sinks[l]
    requires j in sinks
    ensures j <= sinks[|sinks| - 1]
  {
  }

  /** The last sink, when there is one. */
  lemma LastSink(plan: seq<SubTask>, o: RepairObligation, sinks: seq<int>)
    requires sinks == Sinks(plan, Writers(plan, o), |Writers(plan, o)|)
    ensures sinks == [] ==> CannotBePlaced(plan, o)
    ensures sinks != [] ==> IsLastDownstream(plan, o, sinks[|sinks| - 1])
  {
    var w := Writers(plan, o);
    assert w[..|w|] == w;
    SinksAscend(plan, w, |w|);
    forall j | Downstream(plan, o, j) ensures j in sinks && j <= sinks[|sinks| - 1] {
      SinksAreDownstream(plan, o, j);
      LastIsGreatest(sinks, j);
    }
    if sinks != [] {
      var last := sinks[|sinks| - 1];
      assert last in sinks;
      SinksAreDownstream(plan, o, last);
    }
  }

  /** `ids` are the ids of the tasks at `at`, which are ascending candidates other than `index`. */
  ghost predicate ListsOthers(plan: seq<SubTask>, candidates: seq<int>, index: int, at: seq<int>, ids: seq<string>) {
    && |at| == |ids|
    && (forall k :: 0 <= k < |at| ==> at[k] in candidates && at[k] != index && 0 <= at[k] < |plan| && plan[at[k]].taskId == ids[k])
    && forall k, l :: 0 <= k < l < |at| ==> at[k] < at[l]
  }

  lemma ListsOneMore(plan: seq<SubTask>, candidates: seq<int>, index: int, at: seq<int>, ids: seq<string>)
    requires candidates != [] && 0 <= candidates[0] < |plan| && ListsOthers(plan, candidates[1..], index, at, ids)
    requires forall x :: x in candidates[1..] ==> candidates[0] < x
    ensures ListsOthers(plan, candidates, index, at, ids)
    ensures candidates[0] != index ==>
      ListsOthers(plan, candidates, index, [candidates[0]] + at, [plan[candidates[0]].taskId] + ids)
  {
    assert candidates == [candidates[0]] + candidates[1..];
  }

  lemma {:induction false} RequiredInOrder(plan: seq<SubTask>, candidates: seq<int>, index: int) returns (at: seq<int>)
    requires ValidIndices(plan, candidates)
    requires forall k, l :: 0 <= k < l < |candidates| ==> candidates[k] < candidates[l]
    ensures ListsOthers(plan, candidates, index, at, Required(plan, candidates, index))
  {
    if candidates == [] {
      at := [];
    } else {
      at := RequiredInOrder(plan, candidates[1..], index);
      ListsOneMore(plan, candidates, index, at, Required(plan, candidates[1..], index));
      if candidates[0] != index {
        at := [candidates[0]] + at;
      }
    }
  }

  lemma ListedInOrder(plan: seq<SubTask>, o: RepairObligation, i: int, candidates: seq<int>, at: seq<int>, ids: seq<string>)
    requires ListsOthers(plan, candidates, i, at, ids) && forall j :: j in candidates ==> WritesEither(plan, o, j)
    ensures InPlanOrder(plan, o, i, ids)
  {
  }

  lemma RequiredId(plan: seq<SubTask>, o: RepairObligation, i: int, w: seq<int>, id: string)
    requires w == Writers(plan, o)
    ensures id in Required(plan, w, i) <==> OtherWriter(plan, o, i, id)
  {
    if OtherWriter(plan, o, i, id) {
      var j :| WritesEither(plan, o, j) && j != i && plan[j].taskId == id;
      WriterWrites(plan, o, j);
      var k :| 0 <= k < |w| && w[k] == j;
    }
    if id in Required(plan, w, i) {
      var k :| 0 <= k < |w| && w[k] != i && plan[w[k]].taskId == id;
      assert w[k] in w;
      WriterWrites(plan, o, w[k]);
    }
  }

  lemma RequiredAreOthers(plan: seq<SubTask>, o: RepairObligation, i: int, ids: seq<string>)
    requires ids == Required(plan, Writers(plan, o), i)
    ensures InPlanOrder(plan, o, i, ids)
    ensures forall id :: id in ids <==> OtherWriter(plan, o, i, id)
  {
    var w := Writers(plan, o);
    var at := RequiredInOrder(plan, w, i);
    forall j | j in w ensures WritesEither(plan, o, j) {
      WriterWrites(plan, o, j);
    }
    ListedInOrder(plan, o, i, w, at, ids);
    forall id ensures id in ids <==> OtherWriter(plan, o, i, id) {
      RequiredId(plan, o, i, w, id);
    }
  }

  lemma ReattachedLast(plan: seq<SubTask>, o: RepairObligation, i: int, next: seq<SubTask>)
    requires IsLastDownstream(plan, o, i)
    requires next == plan[i := Reattach(plan[i], Required(plan, Writers(plan, o), i), o)]
    ensures PlacedLast(plan, o, i, next)
  {
    var ids := Required(plan, Writers(plan, o), i);
    RequiredAreOthers(plan, o, i, ids);
    assert next[i].dependsOn == Dedup(plan[i].dependsOn + ids);
    assert plan[i].repairObligations + [] == plan[i].repairObligations;
  }

  /** On every plan, cyclic or with repeated ids: an obligation is placed on the last writer that is
      downstream of the others, and cannot be placed exactly when there is none. */
  lemma PlacedExactly(plan: seq<SubTask>, o: RepairObligation)
    ensures Place(plan, o).None? <==> CannotBePlaced(plan, o)
    ensures Place(plan, o).Some? ==> PlacedSomewhere(plan, o, Place(plan, o).value)
  {
    var sinks := Sinks(plan, Writers(plan, o), |Writers(plan, o)|);
    LastSink(plan, o, sinks);
    if sinks != [] {
      var i := sinks[|sinks| - 1];
      ReattachedLast(plan, o, i, plan[i := Reattach(plan[i], Required(plan, Writers(plan, o), i), o)]);
    }
  }

  // ------------------------------------------------------------ all obligations, in order

  /** The obligations of a batch are those of its tasks, task by task. */
  lemma {:induction false} ObligationsInOrder(a: seq<SubTask>, b: seq<SubTask>, task: SubTask)
    ensures ObligationsOf([]) == [] && ObligationsOf([task]) == task.repairObligations
    ensures ObligationsOf(a + b) == ObligationsOf(a) + ObligationsOf(b)
  {
    assert [task][1..] == [] && task.repairObligations + [] == task.repairObligations;
    if a == [] {
      assert a + b == b;
    } else {
      ObligationsInOrder(a[1..], b, task);
      assert (a + b)[1..] == a[1..] + b;
      assert (a + b)[0] == a[0];
    }
  }

  /** `states` are the plans from the approved one on, each with one more obligation placed. */
  ghost predicate IsRewrite(obligations: seq<RepairObligation>, states: seq<seq<SubTask>>) {
    |states| == |obligations| + 1 &&
    forall k :: 0 <= k < |obligations| ==> PlacedSomewhere(states[k], obligations[k], states[k + 1])
  }

  lemma RewriteFirst(obligations: seq<RepairObligation>, plan: seq<SubTask>, states: seq<seq<SubTask>>)
    requires obligations != [] && IsRewrite(obligations[1..], states)
    requires PlacedSomewhere(plan, obligations[0], states[0])
    ensures IsRewrite(obligations, [plan] + states)
  {
    var all := [plan] + states;
    forall k | 0 <= k < |obligations| ensures PlacedSomewhere(all[k], obligations[k], all[k + 1]) {
      if k > 0 {
        assert obligations[1..][k - 1] == obligations[k];
        assert all[k] == states[k - 1] && all[k + 1] == states[k];
      }
    }
  }

  /** The rewrite places the obligations one after the other. It fails exactly when it comes to one
      that cannot be placed. */
  lemma {:induction false} PreserveExactly(obligations: seq<RepairObligation>, plan: seq<SubTask>) returns (states: seq<seq<SubTask>>)
    ensures states != [] && states[0] == plan
    ensures Preserve(obligations, plan).Some? ==>
      IsRewrite(obligations, states) && Preserve(obligations, plan).value == states[|obligations|]
    ensures Preserve(obligations, plan).None? ==>
      && |states| <= |obligations| && IsRewrite(obligations[..|states| - 1], states)
      && CannotBePlaced(states[|states| - 1], obligations[|states| - 1])
  {
    if obligations == [] {
      states := [plan];
    } else {
      PlacedExactly(plan, obligations[0]);
      var next := Place(plan, obligations[0]);
      if next.None? {
        states := [plan];
      } else {
        var rest := PreserveExactly(obligations[1..], next.value);
        states := [plan] + rest;
        RewriteStep(obligations, plan, next.value, rest);
      }
    }
  }

  lemma RewriteStep(obligations: seq<RepairObligation>, plan: seq<SubTask>, next: seq<SubTask>, rest: seq<seq<SubTask>>)
    requires obligations != [] && rest != [] && rest[0] == next
    requires PlacedSomewhere(plan, obligations[0], next)
    ensures IsRewrite(obligations[1..], rest) ==> IsRewrite(obligations, [plan] + rest)
    ensures |rest| <= |obligations| - 1 && IsRewrite(obligations[1..][..|rest| - 1], rest) ==>
      IsRewrite(obligations[..|rest|], [plan] + rest)
  {
    if IsRewrite(obligations[1..], rest) {
      RewriteFirst(obligations, plan, rest);
    }
    if |rest| <= |obligations| - 1 && IsRewrite(obligations[1..][..|rest| - 1], rest) {
      var some := obligations[..|rest|];
      assert some[1..] == obligations[1..][..|rest| - 1];
      RewriteFirst(some, plan, rest);
    }
  }
}
