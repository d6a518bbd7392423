/** Greedy layering of a plan into waves. */
module WaveLayering {
  import opened Sequences
  import opened Graph
  import opened Plan

  predicate IsReady(task: SubTask, completed: set<string>) {
    forall d :: d in task.dependsOn ==> d in completed
  }

  function TaskIdSet(tasks: seq<SubTask>): set<string> {
    set t | t in tasks :: t.taskId
  }

  /** The waves peeled off one after another, and what is left when nothing is ready. */
  datatype Layers = Layers(waves: seq<seq<SubTask>>, stuck: seq<SubTask>)

  function Ready(remaining: seq<SubTask>, completed: set<string>): seq<SubTask> {
    Filter(remaining, t => IsReady(t, completed))
  }

  function Waiting(remaining: seq<SubTask>, completed: set<string>): (w: seq<SubTask>)
    ensures Ready(remaining, completed) != [] ==> |w| < |remaining|
  {
    var w := Filter(remaining, t => !IsReady(t, completed));
    FilterSplits(remaining, t => IsReady(t, completed), t => !IsReady(t, completed));
    w
  }

  function Peel(remaining: seq<SubTask>, completed: set<string>): Layers
    decreases |remaining|
  {
    var wave := Ready(remaining, completed);
    if wave == [] then Layers([], remaining)
    else
      var rest := Peel(Waiting(remaining, completed), completed + TaskIdSet(wave));
      rest.(waves := [wave] + rest.waves)
  }

  /** A nonempty remainder is shown as one final wave. */
  function Shown(layers: Layers): seq<seq<SubTask>> {
    if layers.stuck == [] then layers.waves else layers.waves + [layers.stuck]
  }

  method ComputeWaves(subtasks: seq<SubTask>) returns (waves: seq<seq<SubTask>>)
    ensures waves == Shown(Peel(subtasks, {}))
  {
    var completed: set<string> := {};
    var remaining := subtasks;
    waves := [];
    while remaining != []
      invariant Shown(Peel(subtasks, {})) == waves + Shown(Peel(remaining, completed))
      decreases |remaining|
    {
      var wave := Ready(remaining, completed);
      if wave == [] {
        waves := waves + [remaining];
        return;
      }
      var rest := Peel(Waiting(remaining, completed), completed + TaskIdSet(wave));
      assert waves + ([wave] + Shown(rest)) == (waves + [wave]) + Shown(rest);
      assert Shown(Peel(remaining, completed)) == [wave] + Shown(rest);
      waves := waves + [wave];
      NotInWave(remaining, completed);
      remaining := Filter(remaining, t => t !in wave);
      completed := completed + TaskIdSet(wave);
    }
    assert Peel([], completed) == Layers([], []);
  }

  /** Dropping the tasks of the wave keeps exactly those that were not ready. */
  lemma NotInWave(remaining: seq<SubTask>, completed: set<string>)
    ensures Filter(remaining, t => t !in Ready(remaining, completed)) == Waiting(remaining, completed)
  {
    FilterAgrees(remaining, t => t !in Ready(remaining, completed), t => !IsReady(t, completed));
  }

  // ------------------------------------------------------------ every plan

  /** What is shown of a plan, one wave at a time. */
  lemma ShownStep(remaining: seq<SubTask>, completed: set<string>)
    ensures
      var wave := Ready(remaining, completed);
      Shown(Peel(remaining, completed)) ==
        if remaining == [] then []
        else if wave == [] then [remaining]
        else [wave] + Shown(Peel(Waiting(remaining, completed), completed + TaskIdSet(wave)))
  {
    if Ready(remaining, completed) != [] {
      var rest := Peel(Waiting(remaining, completed), completed + TaskIdSet(Ready(remaining, completed)));
      assert [Ready(remaining, completed)] + (rest.waves + [rest.stuck]) == ([Ready(remaining, completed)] + rest.waves) + [rest.stuck];
    }
  }

  lemma ReadyAndWaiting(remaining: seq<SubTask>, completed: set<string>)
    ensures multiset(Ready(remaining, completed)) + multiset(Waiting(remaining, completed)) == multiset(remaining)
  {
    FilterSplits(remaining, t => IsReady(t, completed), t => !IsReady(t, completed));
  }

  lemma FlattenFirst(wave: seq<SubTask>, rest: seq<seq<SubTask>>)
    ensures Flatten([wave] + rest) == wave + Flatten(rest)
  {
    assert ([wave] + rest)[1..] == rest;
  }

  /** The waves hold every task of the plan exactly as often as the plan does. */
  lemma {:induction false} WavesPartition(remaining: seq<SubTask>, completed: set<string>)
    ensures multiset(Flatten(Shown(Peel(remaining, completed)))) == multiset(remaining)
    decreases |remaining|
  {
    ShownStep(remaining, completed);
    var wave := Ready(remaining, completed);
    if remaining == [] {
      assert Flatten<SubTask>([]) == [];
    } else if wave == [] {
      FlattenFirst(remaining, []);
      assert [remaining] + [] == [remaining] && remaining + [] == remaining;
    } else {
      var waiting, next := Waiting(remaining, completed), completed + TaskIdSet(wave);
      ReadyAndWaiting(remaining, completed);
      WavesPartition(waiting, next);
      FlattenFirst(wave, Shown(Peel(waiting, next)));
    }
  }

  /** Some task with this id is in one of the first `k` waves. */
  ghost predicate PlacedBefore(waves: seq<seq<SubTask>>, k: int, id: string)
    requires k <= |waves|
  {
    exists w :: 0 <= w < k && HasId(waves[w], id)
  }

  lemma PlacedShift(wave: seq<SubTask>, rest: seq<seq<SubTask>>, k: int, id: string)
    requires 0 <= k <= |rest|
    ensures PlacedBefore([wave] + rest, k + 1, id) <==> HasId(wave, id) || PlacedBefore(rest, k, id)
  {
    var waves := [wave] + rest;
    if w :| 0 <= w < k && HasId(rest[w], id) {
      assert waves[w + 1] == rest[w];
    }
    if HasId(wave, id) {
      assert HasId(waves[0], id);
    }
    if w :| 0 < w < k + 1 && HasId(waves[w], id) {
      assert waves[w] == rest[w - 1];
    }
  }

  lemma IdSetMembers(tasks: seq<SubTask>, id: string)
    ensures id in TaskIdSet(tasks) <==> HasId(tasks, id)
  {
    if id in TaskIdSet(tasks) {
      var t :| t in tasks && t.taskId == id;
    }
  }

  /** What holds of a task in wave `k`, of every plan: all its dependencies are completed before
      the wave, and unless the wave is the first, one of them only in the wave before. */
  lemma {:induction false} WaveIsTight(remaining: seq<SubTask>, completed: set<string>, k: nat, t: SubTask)
    requires k < |Peel(remaining, completed).waves| && t in Peel(remaining, completed).waves[k]
    ensures t in remaining
    ensures
      var waves: seq<seq<SubTask>> := Peel(remaining, completed).waves;
      forall d :: d in t.dependsOn ==> d in completed || PlacedBefore(waves, k, d)
    ensures
      var waves: seq<seq<SubTask>> := Peel(remaining, completed).waves;
      k > 0 ==> exists d :: d in t.dependsOn && d !in completed && HasId(waves[k - 1], d)
    decreases k
  {
    var wave := Ready(remaining, completed);
    if k > 0 {
      var next := completed + TaskIdSet(wave);
      var rest := Peel(Waiting(remaining, completed), next).waves;
      WaveIsTight(Waiting(remaining, completed), next, k - 1, t);
      forall d | d in t.dependsOn && d !in completed ensures PlacedBefore([wave] + rest, k, d) {
        IdSetMembers(wave, d);
        PlacedShift(wave, rest, k - 1, d);
      }
      if k == 1 {
        assert !IsReady(t, completed);
        var d :| d in t.dependsOn && d !in completed;
        IdSetMembers(wave, d);
      }
    }
  }

  /** A task left over waits for an id that no wave completes. */
  lemma {:induction false} StuckWaits(remaining: seq<SubTask>, completed: set<string>, t: SubTask)
    requires t in Peel(remaining, completed).stuck
    ensures t in remaining
    ensures
      var waves: seq<seq<SubTask>> := Peel(remaining, completed).waves;
      exists d :: d in t.dependsOn && d !in completed && !PlacedBefore(waves, |waves|, d)
    decreases |remaining|
  {
    var wave := Ready(remaining, completed);
    if wave == [] {
      assert !IsReady(t, completed);
    } else {
      var next := completed + TaskIdSet(wave);
      var rest := Peel(Waiting(remaining, completed), next).waves;
      StuckWaits(Waiting(remaining, completed), next, t);
      var d :| d in t.dependsOn && d !in next && !PlacedBefore(rest, |rest|, d);
      IdSetMembers(wave, d);
      PlacedShift(wave, rest, |rest|, d);
    }
  }

  /** Every task of the plan is in a wave or left over. */
  lemma {:induction false} EveryTaskShown(remaining: seq<SubTask>, completed: set<string>, t: SubTask)
    requires t in remaining
    ensures
      var layers := Peel(remaining, completed);
      t in layers.stuck || PlacedBefore(layers.waves, |layers.waves|, t.taskId)
    decreases |remaining|
  {
    var wave := Ready(remaining, completed);
    if wave != [] {
      var next := completed + TaskIdSet(wave);
      var rest := Peel(Waiting(remaining, completed), next).waves;
      if t in wave {
        var i :| 0 <= i < |wave| && wave[i] == t;
      } else {
        EveryTaskShown(Waiting(remaining, completed), next, t);
      }
      PlacedShift(wave, rest, |rest|, t.taskId);
    }
  }

  // ------------------------------------------------------------ the waves, without the peeling

  /** The task is in none of the first `k` waves. */
  ghost predicate NotYet(waves: seq<seq<SubTask>>, k: nat, t: SubTask)
    requires k <= |waves|
  {
    forall w :: 0 <= w < k ==> t !in waves[w]
  }

  /** Every dependency is the id of a task in one of the first `k` waves. */
  ghost predicate CanRun(waves: seq<seq<SubTask>>, k: nat, t: SubTask)
    requires k <= |waves|
  {
    forall d :: d in t.dependsOn ==> PlacedBefore(waves, k, d)
  }

  ghost function Left(waves: seq<seq<SubTask>>, k: nat): SubTask -> bool
    requires k <= |waves|
  {
    (t: SubTask) => NotYet(waves, k, t)
  }

  ghost function Runs(waves: seq<seq<SubTask>>, k: nat): SubTask -> bool
    requires k <= |waves|
  {
    (t: SubTask) => NotYet(waves, k, t) && CanRun(waves, k, t)
  }

  /** Wave `k` is, in the order of the plan, every task that can run and has not run; when there is
      none it is the last wave, and is everything that has not run. */
  ghost predicate IsWave(plan: seq<SubTask>, waves: seq<seq<SubTask>>, k: int) {
    0 <= k < |waves| && waves[k] != [] &&
    if Filter(plan, Runs(waves, k)) != [] then waves[k] == Filter(plan, Runs(waves, k))
    else k == |waves| - 1 && waves[k] == Filter(plan, Left(waves, k))
  }

  ghost predicate IsLayering(plan: seq<SubTask>, waves: seq<seq<SubTask>>) {
    && (forall k :: 0 <= k < |waves| ==> IsWave(plan, waves, k))
    && Filter(plan, Left(waves, |waves|)) == []
  }

  /** The state of the loop: the waves so far, what is completed, and what remains. */
  ghost predicate LoopState(plan: seq<SubTask>, waves: seq<seq<SubTask>>, completed: set<string>, remaining: seq<SubTask>) {
    && (forall k :: 0 <= k < |waves| ==> IsWave(plan, waves, k))
    && (forall id :: id in completed <==> PlacedBefore(waves, |waves|, id))
    && remaining == Filter(plan, Left(waves, |waves|))
  }

  /** Every wave so far held tasks that could run. */
  ghost predicate AllRan(plan: seq<SubTask>, waves: seq<seq<SubTask>>) {
    forall k :: 0 <= k < |waves| ==> Filter(plan, Runs(waves, k)) != []
  }

  lemma {:induction false} FilterBoth(s: seq<SubTask>, p: SubTask -> bool, q: SubTask -> bool, r: SubTask -> bool)
    requires forall t :: r(t) <==> p(t) && q(t)
    ensures Filter(Filter(s, p), q) == Filter(s, r)
  {
    if s != [] {
      FilterBoth(s[1..], p, q, r);
      var head := if p(s[0]) then [s[0]] else [];
      FilterConcat(head, Filter(s[1..], p), q);
      FilterOne(s[0], q);
    }
  }

  lemma PlacedInMore(waves: seq<seq<SubTask>>, wave: seq<SubTask>, k: nat, id: string)
    requires k <= |waves|
    ensures PlacedBefore(waves + [wave], k, id) <==> PlacedBefore(waves, k, id)
    ensures PlacedBefore(waves + [wave], |waves| + 1, id) <==> PlacedBefore(waves, |waves|, id) || HasId(wave, id)
  {
    var more := waves + [wave];
    forall w | 0 <= w < |waves| ensures more[w] == waves[w] {
    }
    assert more[|waves|] == wave;
  }

  lemma EarlierWaves(plan: seq<SubTask>, waves: seq<seq<SubTask>>, wave: seq<SubTask>, k: nat)
    requires k < |waves| && IsWave(plan, waves, k) && Filter(plan, Runs(waves, k)) != []
    ensures IsWave(plan, waves + [wave], k)
  {
    SameFilters(plan, waves, wave, k);
  }

  lemma SameFilters(plan: seq<SubTask>, waves: seq<seq<SubTask>>, wave: seq<SubTask>, k: nat)
    requires k <= |waves|
    ensures Filter(plan, Runs(waves + [wave], k)) == Filter(plan, Runs(waves, k))
    ensures Filter(plan, Left(waves + [wave], k)) == Filter(plan, Left(waves, k))
  {
    var more := waves + [wave];
    forall t ensures NotYet(more, k, t) <==> NotYet(waves, k, t) {
      assert forall w :: 0 <= w < k ==> more[w] == waves[w];
    }
    forall t ensures CanRun(more, k, t) <==> CanRun(waves, k, t) {
      forall d ensures PlacedBefore(more, k, d) <==> PlacedBefore(waves, k, d) {
        PlacedInMore(waves, wave, k, d);
      }
    }
    FilterAgrees(plan, Runs(more, k), Runs(waves, k));
    FilterAgrees(plan, Left(more, k), Left(waves, k));
  }

  lemma RunsAreReady(plan: seq<SubTask>, waves: seq<seq<SubTask>>, completed: set<string>, remaining: seq<SubTask>)
    requires LoopState(plan, waves, completed, remaining)
    ensures Ready(remaining, completed) == Filter(plan, Runs(waves, |waves|))
  {
    forall t ensures CanRun(waves, |waves|, t) <==> IsReady(t, completed) {
    }
    FilterBoth(plan, Left(waves, |waves|), t => IsReady(t, completed), Runs(waves, |waves|));
  }

  lemma LeftInMore(waves: seq<seq<SubTask>>, wave: seq<SubTask>, t: SubTask)
    ensures NotYet(waves + [wave], |waves| + 1, t) <==> NotYet(waves, |waves|, t) && t !in wave
  {
    var more := waves + [wave];
    assert more[|waves|] == wave && forall w :: 0 <= w < |waves| ==> more[w] == waves[w];
  }

  lemma WaitingIsLeft(plan: seq<SubTask>, waves: seq<seq<SubTask>>, completed: set<string>, remaining: seq<SubTask>, wave: seq<SubTask>)
    requires remaining == Filter(plan, Left(waves, |waves|)) && wave == Ready(remaining, completed)
    ensures Waiting(remaining, completed) == Filter(plan, Left(waves + [wave], |waves| + 1))
  {
    NotInWave(remaining, completed);
    forall t ensures Left(waves + [wave], |waves| + 1)(t) <==> Left(waves, |waves|)(t) && t !in wave {
      LeftInMore(waves, wave, t);
    }
    FilterBoth(plan, Left(waves, |waves|), t => t !in wave, Left(waves + [wave], |waves| + 1));
    FilterAgrees(remaining, t => t !in wave, t => t !in Ready(remaining, completed));
  }

  /** One more wave of the loop. */
  lemma LoopStep(plan: seq<SubTask>, waves: seq<seq<SubTask>>, completed: set<string>, remaining: seq<SubTask>, wave: seq<SubTask>)
    requires LoopState(plan, waves, completed, remaining) && wave == Ready(remaining, completed) != []
    requires AllRan(plan, waves)
    ensures LoopState(plan, waves + [wave], completed + TaskIdSet(wave), Waiting(remaining, completed))
    ensures AllRan(plan, waves + [wave])
  {
    var more := waves + [wave];
    RunsAreReady(plan, waves, completed, remaining);
    WaitingIsLeft(plan, waves, completed, remaining, wave);
    forall k | 0 <= k <= |waves| ensures Filter(plan, Runs(more, k)) != [] && IsWave(plan, more, k) {
      SameFilters(plan, waves, wave, k);
      if k < |waves| {
        EarlierWaves(plan, waves, wave, k);
      }
    }
    forall id ensures id in completed + TaskIdSet(wave) <==> PlacedBefore(more, |more|, id) {
      PlacedInMore(waves, wave, |waves|, id);
      IdSetMembers(wave, id);
    }
  }

  lemma NoneLeft(plan: seq<SubTask>, waves: seq<seq<SubTask>>, remaining: seq<SubTask>)
    requires remaining == Filter(plan, Left(waves, |waves|))
    ensures Filter(plan, Left(waves + [remaining], |waves| + 1)) == []
  {
    forall t | t in plan ensures !Left(waves + [remaining], |waves| + 1)(t) {
      LeftInMore(waves, remaining, t);
      assert NotYet(waves, |waves|, t) ==> t in remaining;
    }
    FilterOfNone(plan, Left(waves + [remaining], |waves| + 1));
  }

  lemma LastStep(plan: seq<SubTask>, waves: seq<seq<SubTask>>, completed: set<string>, remaining: seq<SubTask>)
    requires LoopState(plan, waves, completed, remaining) && remaining != [] && Ready(remaining, completed) == []
    requires AllRan(plan, waves)
    ensures IsLayering(plan, waves + [remaining])
  {
    var more := waves + [remaining];
    RunsAreReady(plan, waves, completed, remaining);
    NoneLeft(plan, waves, remaining);
    forall k | 0 <= k < |more| ensures IsWave(plan, more, k) {
      SameFilters(plan, waves, remaining, k);
      if k < |waves| {
        EarlierWaves(plan, waves, remaining, k);
      }
    }
  }

  lemma {:induction false} PeelIsLayering(plan: seq<SubTask>, waves: seq<seq<SubTask>>, completed: set<string>, remaining: seq<SubTask>)
    requires LoopState(plan, waves, completed, remaining) && AllRan(plan, waves)
    ensures IsLayering(plan, waves + Shown(Peel(remaining, completed)))
    decreases |remaining|
  {
    var wave := Ready(remaining, completed);
    if remaining == [] {
      ShownNothing(completed);
      assert waves + [] == waves;
      assert IsLayering(plan, waves);
    } else if wave == [] {
      ShownStep(remaining, completed);
      LastStep(plan, waves, completed, remaining);
    } else {
      var waiting, next := Waiting(remaining, completed), completed + TaskIdSet(wave);
      LoopStep(plan, waves, completed, remaining, wave);
      PeelIsLayering(plan, waves + [wave], next, waiting);
      ShownMore(waves, remaining, completed);
    }
  }

  lemma ShownNothing(completed: set<string>)
    ensures Shown(Peel([], completed)) == []
  {
    ShownStep([], completed);
  }

  lemma ShownMore(waves: seq<seq<SubTask>>, remaining: seq<SubTask>, completed: set<string>)
    requires Ready(remaining, completed) != []
    ensures
      var wave := Ready(remaining, completed);
      waves + Shown(Peel(remaining, completed)) ==
      (waves + [wave]) + Shown(Peel(Waiting(remaining, completed), completed + TaskIdSet(wave)))
  {
    ShownStep(remaining, completed);
  }

  /** The waves of a plan: each one is exactly what can run once the earlier ones have, in the order
      of the plan, and what can never run comes last. */
  lemma WavesExactly(plan: seq<SubTask>)
    ensures IsLayering(plan, Shown(Peel(plan, {})))
  {
    FilterOfAll(plan, Left([], 0));
    PeelIsLayering(plan, [], {}, plan);
    assert [] + Shown(Peel(plan, {})) == Shown(Peel(plan, {}));
  }

  // ------------------------------------------------------------ plans with distinct ids

  lemma SameIdSameTask(plan: seq<SubTask>, a: SubTask, b: SubTask)
    requires DistinctIds(plan) && a in plan && b in plan && a.taskId == b.taskId
    ensures a == b
  {
    var i :| 0 <= i < |plan| && plan[i] == a;
    var j :| 0 <= j < |plan| && plan[j] == b;
  }

  lemma {:induction false} FilterKeepsDistinctIds(plan: seq<SubTask>, p: SubTask -> bool)
    requires DistinctIds(plan)
    ensures DistinctIds(Filter(plan, p))
  {
    if plan != [] {
      FilterKeepsDistinctIds(plan[1..], p);
      var rest := Filter(plan[1..], p);
      forall j | 0 <= j < |rest| ensures rest[j].taskId != plan[0].taskId {
        assert rest[j] in rest;
        var i :| 0 <= i < |plan[1..]| && plan[1..][i] == rest[j];
      }
    }
  }

  /** An id completed in one wave is in no later wave and not left over. */
  lemma {:induction false} WavesDisjoint(remaining: seq<SubTask>, completed: set<string>, i: nat, id: string)
    requires DistinctIds(remaining)
    requires i < |Peel(remaining, completed).waves| && HasId(Peel(remaining, completed).waves[i], id)
    ensures
      var layers := Peel(remaining, completed);
      && !HasId(layers.stuck, id)
      && forall j :: i < j < |layers.waves| ==> !HasId(layers.waves[j], id)
    decreases i
  {
    var layers := Peel(remaining, completed);
    var wave := Ready(remaining, completed);
    var waiting := Waiting(remaining, completed);
    var next := completed + TaskIdSet(wave);
    var rest := Peel(waiting, next);
    if i > 0 {
      FilterKeepsDistinctIds(remaining, t => !IsReady(t, completed));
      WavesDisjoint(waiting, next, i - 1, id);
      assert forall j :: 0 < j < |layers.waves| ==> layers.waves[j] == rest.waves[j - 1];
    } else {
      var k :| 0 <= k < |wave| && wave[k].taskId == id;
      assert wave[k] in wave;
      if HasId(rest.stuck, id) {
        var l :| 0 <= l < |rest.stuck| && rest.stuck[l].taskId == id;
        StuckWaits(waiting, next, rest.stuck[l]);
        SameIdSameTask(remaining, wave[k], rest.stuck[l]);
      }
      forall j | 0 < j < |layers.waves| ensures !HasId(layers.waves[j], id) {
        if HasId(rest.waves[j - 1], id) {
          var l :| 0 <= l < |rest.waves[j - 1]| && rest.waves[j - 1][l].taskId == id;
          WaveIsTight(waiting, next, j - 1, rest.waves[j - 1][l]);
          SameIdSameTask(remaining, wave[k], rest.waves[j - 1][l]);
        }
      }
    }
  }

  /** A walk that starts in wave `k` goes to an earlier wave with every step. */
  lemma {:induction false} WalkDescends(plan: seq<SubTask>, k: nat, p: seq<string>)
    requires DistinctIds(plan) && IsWalk(GraphOf(plan), p)
    requires k < |Peel(plan, {}).waves| && HasId(Peel(plan, {}).waves[k], p[0])
    ensures |p| <= k + 1
    ensures PlacedBefore(Peel(plan, {}).waves, k + 2 - |p|, p[|p| - 1])
    decreases |p|
  {
    var waves: seq<seq<SubTask>> := Peel(plan, {}).waves;
    if |p| > 1 {
      var i :| 0 <= i < |waves[k]| && waves[k][i].taskId == p[0];
      var t := waves[k][i];
      assert t in waves[k];
      WaveIsTight(plan, {}, k, t);
      var n :| 0 <= n < |plan| && plan[n] == t;
      assert Edge(GraphOf(plan), p[0], p[1]);
      EdgeOfMember(plan, n, p[1]);
      var m :| 0 <= m < k && HasId(waves[m], p[1]);
      WalkDescends(plan, m, p[1..]);
    }
  }

  /** From `a`, in any number of steps, a dependency cycle or an unknown id can be reached. */
  ghost predicate CannotFinish(g: Graph, a: string) {
    exists u :: (u == a || Reaches(g, a, u)) && (u !in g || Reaches(g, u, u))
  }

  lemma PlacedIsKnown(plan: seq<SubTask>, k: nat, id: string)
    requires k <= |Peel(plan, {}).waves| && PlacedBefore(Peel(plan, {}).waves, k, id)
    ensures id in GraphOf(plan)
  {
    var waves: seq<seq<SubTask>> := Peel(plan, {}).waves;
    var w :| 0 <= w < k && HasId(waves[w], id);
    var i :| 0 <= i < |waves[w]| && waves[w][i].taskId == id;
    assert waves[w][i] in waves[w];
    WaveIsTight(plan, {}, w, waves[w][i]);
    var n :| 0 <= n < |plan| && plan[n] == waves[w][i];
    assert HasId(plan, id);
    ByIdKeys(plan, id);
  }

  /** What a wave completes depends on no cycle and no unknown id. */
  lemma WavesCanFinish(plan: seq<SubTask>, k: nat, a: string)
    requires DistinctIds(plan)
    requires k < |Peel(plan, {}).waves| && HasId(Peel(plan, {}).waves[k], a)
    ensures !CannotFinish(GraphOf(plan), a)
  {
    var g, waves := GraphOf(plan), Peel(plan, {}).waves;
    forall u | u == a || Reaches(g, a, u) ensures u in g && !Reaches(g, u, u) {
      var p := if u == a then [a] else var p :| WalkBetween(g, p, a, u); p;
      WalkDescends(plan, k, p);
      PlacedIsKnown(plan, k + 2 - |p|, u);
      var m :| 0 <= m < k + 2 - |p| && HasId(waves[m], u);
      if Reaches(g, u, u) {
        var q :| WalkBetween(g, q, u, u);
        WalkDescends(plan, m, q);
        var l :| 0 <= l < m + 2 - |q| && HasId(waves[l], u);
        WavesDisjoint(plan, {}, l, u);
      }
    }
  }

  /** What is left over waits, in the end, for a cycle or an unknown id. */
  lemma StuckCannotFinish(plan: seq<SubTask>, t: SubTask)
    requires DistinctIds(plan) && t in Peel(plan, {}).stuck
    ensures CannotFinish(GraphOf(plan), t.taskId)
  {
    var g, layers := GraphOf(plan), Peel(plan, {});
    var a := t.taskId;
    if !CannotFinish(g, a) {
      var ids := set x | x in TaskIdSet(layers.stuck) && (x == a || Reaches(g, a, x));
      forall x | x in ids ensures HasSuccessorIn(g, ids, x) {
        var s :| s in layers.stuck && s.taskId == x;
        StuckWaits(plan, {}, s);
        var d :| d in s.dependsOn && !PlacedBefore(layers.waves, |layers.waves|, d);
        var n :| 0 <= n < |plan| && plan[n] == s;
        EdgeOfMember(plan, n, d);
        EdgeReaches(g, x, d);
        if x != a {
          ReachesTransitive(g, a, x, d);
        }
        assert d in g;
        var m := MemberOfId(plan, d);
        EveryTaskShown(plan, {}, plan[m]);
        assert plan[m] in layers.stuck;
      }
      var c := ReachesCycle(g, ids, [a]);
      assert false;
    }
  }

  /** The last wave holds leftovers exactly when some task cannot finish, and then it is exactly
      the tasks that cannot. */
  lemma LeftoversExactly(plan: seq<SubTask>, t: SubTask)
    requires DistinctIds(plan) && t in plan
    ensures t in Peel(plan, {}).stuck <==> CannotFinish(GraphOf(plan), t.taskId)
  {
    var layers := Peel(plan, {});
    if t in layers.stuck {
      StuckCannotFinish(plan, t);
    } else {
      EveryTaskShown(plan, {}, t);
      var k :| 0 <= k < |layers.waves| && HasId(layers.waves[k], t.taskId);
      WavesCanFinish(plan, k, t.taskId);
    }
  }

  // ------------------------------------------------------------ plans that can finish

  lemma NoLeftovers(plan: seq<SubTask>)
    requires DistinctIds(plan) && Acyclic(GraphOf(plan)) && Closed(GraphOf(plan))
    ensures Shown(Peel(plan, {})) == Peel(plan, {}).waves
  {
    var g, layers := GraphOf(plan), Peel(plan, {});
    if layers.stuck != [] {
      var t := layers.stuck[0];
      StuckWaits(plan, {}, t);
      forall u | u == t.taskId || Reaches(g, t.taskId, u) ensures u in g {
        if u == t.taskId {
          var n :| 0 <= n < |plan| && plan[n] == t;
          ByIdOfMember(plan, n);
        } else {
          var p :| WalkBetween(g, p, t.taskId, u);
          assert Edge(g, p[|p| - 2], u);
        }
      }
      StuckCannotFinish(plan, t);
    }
  }

  /** A task of a later wave depends on one of the wave before. */
  lemma DependencyBefore(plan: seq<SubTask>, k: nat, t: SubTask) returns (u: SubTask)
    requires DistinctIds(plan) && k > 0
    requires k < |Peel(plan, {}).waves| && t in Peel(plan, {}).waves[k]
    ensures u in Peel(plan, {}).waves[k - 1] && Edge(GraphOf(plan), t.taskId, u.taskId)
  {
    var waves: seq<seq<SubTask>> := Peel(plan, {}).waves;
    WaveIsTight(plan, {}, k, t);
    var d :| d in t.dependsOn && HasId(waves[k - 1], d);
    var i :| 0 <= i < |waves[k - 1]| && waves[k - 1][i].taskId == d;
    u := waves[k - 1][i];
    var n :| 0 <= n < |plan| && plan[n] == t;
    EdgeOfMember(plan, n, d);
  }

  /** A dependency chain through every wave up to wave `k`. */
  lemma {:induction false} ChainThroughWaves(plan: seq<SubTask>, k: nat, t: SubTask) returns (p: seq<string>)
    requires DistinctIds(plan)
    requires k < |Peel(plan, {}).waves| && t in Peel(plan, {}).waves[k]
    ensures IsWalk(GraphOf(plan), p) && p[0] == t.taskId && |p| == k + 1
    decreases k
  {
    p := [t.taskId];
    if k > 0 {
      var u := DependencyBefore(plan, k, t);
      var q := ChainThroughWaves(plan, k - 1, u);
      p := p + q;
    }
  }

  /** A task of wave `k` heads a chain of `k + 1` tasks and none longer: its wave index is the
      length of its longest chain of dependencies. */
  lemma {:induction false} WaveIsLongestChain(plan: seq<SubTask>, k: nat, t: SubTask)
    requires DistinctIds(plan)
    requires k < |Peel(plan, {}).waves| && t in Peel(plan, {}).waves[k]
    ensures exists p :: IsWalk(GraphOf(plan), p) && p[0] == t.taskId && |p| == k + 1
    ensures forall p :: IsWalk(GraphOf(plan), p) && p[0] == t.taskId ==> |p| <= k + 1
  {
    var p := ChainThroughWaves(plan, k, t);
    var waves: seq<seq<SubTask>> := Peel(plan, {}).waves;
    var i :| 0 <= i < |waves[k]| && waves[k][i] == t;
    assert HasId(waves[k], t.taskId);
    forall p | IsWalk(GraphOf(plan), p) && p[0] == t.taskId ensures |p| <= k + 1 {
      WalkDescends(plan, k, p);
    }
  }

  /** A schedule gives every task a later slot than each of its dependencies. */
  ghost predicate IsSchedule(g: Graph, slot: string -> int) {
    && (forall a :: a in g ==> slot(a) >= 0)
    && (forall a, b :: Edge(g, a, b) ==> slot(b) < slot(a))
  }

  lemma {:induction false} ScheduleFollowsChain(g: Graph, slot: string -> int, p: seq<string>)
    requires IsSchedule(g, slot) && IsWalk(g, p) && p[|p| - 1] in g
    ensures slot(p[0]) >= |p| - 1
    decreases |p|
  {
    if |p| > 1 {
      assert Edge(g, p[0], p[1]);
      ScheduleFollowsChain(g, slot, p[1..]);
    }
  }

  /** No schedule whatever runs a task in an earlier slot than its wave, so no schedule needs
      fewer slots than there are waves. */
  lemma WavesAreMinimal(plan: seq<SubTask>, k: nat, t: SubTask, slot: string -> int)
    requires DistinctIds(plan) && IsSchedule(GraphOf(plan), slot)
    requires k < |Peel(plan, {}).waves| && t in Peel(plan, {}).waves[k]
    ensures slot(t.taskId) >= k
  {
    var waves: seq<seq<SubTask>> := Peel(plan, {}).waves;
    var p := ChainThroughWaves(plan, k, t);
    var i :| 0 <= i < |waves[k]| && waves[k][i] == t;
    assert HasId(waves[k], p[0]);
    WalkDescends(plan, k, p);
    PlacedIsKnown(plan, 1, p[k]);
    ScheduleFollowsChain(GraphOf(plan), slot, p);
  }
}
