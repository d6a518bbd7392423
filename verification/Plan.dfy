/** Sub-tasks of a reviewed plan and the dependency graph they form. */
module Plan {
  import opened Sequences
  import opened Graph
  import opened NodeIds
  import opened Options

  /** A kernel-owned postcondition a generated repair task must discharge. */
  datatype RepairObligation = RepairObligation(
    kind: string, file: string, definingFile: string, detail: string,
    exactKey: string, familyKey: string)

  datatype SubTask = SubTask(
    taskId: string, description: string,
    targetNodes: seq<string>, contextNodes: seq<string>,
    dependsOn: seq<string>, repairObligations: seq<RepairObligation>)

  ghost predicate DistinctIds(plan: seq<SubTask>) {
    forall i, j :: 0 <= i < j < |plan| ==> plan[i].taskId != plan[j].taskId
  }

  predicate HasId(plan: seq<SubTask>, id: string) {
    exists i :: 0 <= i < |plan| && plan[i].taskId == id
  }

  /** `{task.task_id: task for task in plan}`: a later task replaces an earlier namesake. */
  function ById(plan: seq<SubTask>): map<string, SubTask> {
    if plan == [] then map[]
    else
      var last := plan[|plan| - 1];
      ById(plan[..|plan| - 1])[last.taskId := last]
  }

  ghost function DependencyGraph(tasks: map<string, SubTask>): Graph {
    map id | id in tasks :: tasks[id].dependsOn
  }

  ghost function GraphOf(plan: seq<SubTask>): Graph {
    DependencyGraph(ById(plan))
  }

  lemma {:induction false} ByIdKeys(plan: seq<SubTask>, id: string)
    ensures id in ById(plan) <==> HasId(plan, id)
    ensures id in ById(plan) ==> ById(plan)[id].taskId == id
  {
    if plan != [] {
      ByIdKeys(plan[..|plan| - 1], id);
    }
  }

  lemma {:induction false} ByIdOfMember(plan: seq<SubTask>, i: nat)
    requires DistinctIds(plan) && i < |plan|
    ensures plan[i].taskId in ById(plan) && ById(plan)[plan[i].taskId] == plan[i]
  {
    if i < |plan| - 1 {
      ByIdOfMember(plan[..|plan| - 1], i);
    }
  }

  /** With distinct ids, the edges out of a task are its own `depends_on` list. */
  lemma EdgeOfMember(plan: seq<SubTask>, i: nat, d: string)
    requires DistinctIds(plan) && i < |plan|
    ensures Edge(GraphOf(plan), plan[i].taskId, d) <==> d in plan[i].dependsOn
  {
    ByIdOfMember(plan, i);
  }

  lemma MemberOfId(plan: seq<SubTask>, id: string) returns (i: nat)
    requires id in GraphOf(plan)
    ensures i < |plan| && plan[i].taskId == id
  {
    ByIdKeys(plan, id);
    i :| 0 <= i < |plan| && plan[i].taskId == id;
  }

  ghost predicate IdBefore(plan: seq<SubTask>, i: int, d: string) {
    exists j :: 0 <= j < i < |plan| && plan[j].taskId == d
  }

  /** Every task depends on tasks earlier in the list only. */
  ghost predicate DependsBackwards(plan: seq<SubTask>) {
    forall i, d :: 0 <= i < |plan| && d in plan[i].dependsOn ==> IdBefore(plan, i, d)
  }

  lemma {:induction false} WalkGoesBack(plan: seq<SubTask>, i: nat, p: seq<string>)
    requires DistinctIds(plan) && DependsBackwards(plan)
    requires IsWalk(GraphOf(plan), p) && |p| >= 2 && i < |plan| && p[0] == plan[i].taskId
    ensures IdBefore(plan, i, p[|p| - 1])
    decreases |p|
  {
    assert Edge(GraphOf(plan), p[0], p[1]);
    EdgeOfMember(plan, i, p[1]);
    if |p| > 2 {
      assert IdBefore(plan, i, p[1]);
      var j :| 0 <= j < i && plan[j].taskId == p[1];
      WalkGoesBack(plan, j, p[1..]);
    }
  }

  /** A plan listed in dependency order has no cycle and no unknown id. */
  lemma BackwardsIsAcyclic(plan: seq<SubTask>)
    requires DistinctIds(plan) && DependsBackwards(plan)
    ensures Acyclic(GraphOf(plan)) && Closed(GraphOf(plan))
  {
    var g := GraphOf(plan);
    forall a ensures !Reaches(g, a, a) {
      if Reaches(g, a, a) {
        var p :| WalkBetween(g, p, a, a);
        assert Edge(g, p[0], p[1]);
        var i := MemberOfId(plan, a);
        WalkGoesBack(plan, i, p);
      }
    }
    forall a, b | Edge(g, a, b) ensures b in g {
      var i := MemberOfId(plan, a);
      EdgeOfMember(plan, i, b);
      assert IdBefore(plan, i, b);
      var j :| 0 <= j < i && plan[j].taskId == b;
      ByIdOfMember(plan, j);
    }
  }

  /** Whether a task writes some node of `file`. */
  predicate Writes(task: SubTask, file: string) {
    exists k :: 0 <= k < |task.targetNodes| && FilePath(task.targetNodes[k]) == file
  }
}
