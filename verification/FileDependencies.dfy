/** Serialising operations that share a file, for the file-lock ablation. */
module FileDependencies {
  import opened Sequences
  import opened Graph
  import opened Ordering
  import opened Plan
  import opened WaveLayering
  import opened Workload

  function PathOf(package: string, module_: string): string {
    package + "/" + module_ + ".py"
  }

  /** The files an operation edits, in sorted order, each once. */
  function Resources(package: string, op: Operation): seq<string> {
    var tables := Tables(op);
    Sort(Dedup([PathOf(package, op.module_)] +
               seq(|tables|, k requires 0 <= k < |tables| => PathOf(package, tables[k]))), Less)
  }

  /** An operation's name and the files it edits. */
  datatype Footprint = Footprint(name: string, files: seq<string>)

  function Footprints(package: string, ops: seq<Operation>): (uses: seq<Footprint>)
    ensures |uses| == |ops|
  {
    seq(|ops|, i requires 0 <= i < |ops| => Footprint(ops[i].name, Resources(package, ops[i])))
  }

  /** `previous[r]` for every resource that has a previous user. */
  function PreviousUsers(previous: map<string, string>, resources: seq<string>): (users: seq<string>)
    ensures forall u :: u in users <==> exists k :: 0 <= k < |resources| && resources[k] in previous && previous[resources[k]] == u
  {
    if resources == [] then []
    else
      assert forall k :: 1 <= k < |resources| ==> resources[k] == resources[1..][k - 1];
      (if resources[0] in previous then [previous[resources[0]]] else []) + PreviousUsers(previous, resources[1..])
  }

  function ClaimAll(previous: map<string, string>, resources: seq<string>, name: string): map<string, string> {
    map r | r in previous.Keys + (set x | x in resources) :: if r in resources then name else previous[r]
  }

  /** The last user of every file among the first `n` operations. */
  function PreviousAfter(uses: seq<Footprint>, n: nat): map<string, string>
    requires n <= |uses|
  {
    if n == 0 then map[]
    else ClaimAll(PreviousAfter(uses, n - 1), uses[n - 1].files, uses[n - 1].name)
  }

  /** What operation `i` waits for. */
  function DepsOf(uses: seq<Footprint>, i: nat): seq<string>
    requires i < |uses|
  {
    Dedup(PreviousUsers(PreviousAfter(uses, i), uses[i].files))
  }

  ghost predicate LastOfName(ops: seq<Operation>, n: int, i: int) {
    0 <= i < n <= |ops| && forall j :: i < j < n ==> ops[j].name != ops[i].name
  }

  /** The dependencies of every operation; a later namesake replaces an earlier one. */
  method FileDependenciesOf(package: string, ops: seq<Operation>) returns (dependencies: map<string, seq<string>>)
    ensures forall name :: name in dependencies <==> exists i :: 0 <= i < |ops| && ops[i].name == name
    ensures forall i :: LastOfName(ops, |ops|, i) ==> dependencies[ops[i].name] == DepsOf(Footprints(package, ops), i)
  {
    ghost var uses := Footprints(package, ops);
    var previous: map<string, string> := map[];
    dependencies := map[];
    for i := 0 to |ops|
      invariant previous == PreviousAfter(uses, i)
      invariant forall name :: name in dependencies <==> exists j :: 0 <= j < i && ops[j].name == name
      invariant forall j :: LastOfName(ops, i, j) ==> dependencies[ops[j].name] == DepsOf(uses, j)
    {
      var resources := Resources(package, ops[i]);
      assert uses[i] == Footprint(ops[i].name, resources);
      var deps := Dedup(PreviousUsers(previous, resources));
      forall j | LastOfName(ops, i + 1, j) && j != i ensures LastOfName(ops, i, j) && ops[j].name != ops[i].name {
      }
      dependencies := dependencies[ops[i].name := deps];
      previous := Claim(previous, resources, ops[i].name);
    }
  }

  lemma ClaimOneMore(previous: map<string, string>, resources: seq<string>, r: string, name: string)
    ensures ClaimAll(previous, resources + [r], name) == ClaimAll(previous, resources, name)[r := name]
  {
  }

  method Claim(previous: map<string, string>, resources: seq<string>, name: string) returns (claimed: map<string, string>)
    ensures claimed == ClaimAll(previous, resources, name)
  {
    claimed := previous;
    for k := 0 to |resources|
      invariant claimed == ClaimAll(previous, resources[..k], name)
    {
      assert resources[..k + 1] == resources[..k] + [resources[k]];
      ClaimOneMore(previous, resources[..k], resources[k], name);
      claimed := claimed[resources[k] := name];
    }
    assert resources[..|resources|] == resources;
  }

  // ------------------------------------------------------------ who used a file last

  /** Operation `k` is the latest user of `r` among the first `n`. */
  ghost predicate UsedLast(uses: seq<Footprint>, n: int, r: string, k: int) {
    0 <= k < n <= |uses| && r in uses[k].files && forall l :: k < l < n ==> r !in uses[l].files
  }

  /** `previous` names, for each file used so far, its latest user. */
  lemma {:induction false} LatestUser(uses: seq<Footprint>, n: nat, r: string)
    requires n <= |uses|
    ensures r in PreviousAfter(uses, n) ==> exists k :: UsedLast(uses, n, r, k) && PreviousAfter(uses, n)[r] == uses[k].name
    ensures r !in PreviousAfter(uses, n) ==> forall k :: 0 <= k < n ==> r !in uses[k].files
  {
    if n > 0 {
      LatestUser(uses, n - 1, r);
      if r in uses[n - 1].files {
        assert UsedLast(uses, n, r, n - 1);
      } else if r in PreviousAfter(uses, n - 1) {
        var k :| UsedLast(uses, n - 1, r, k) && PreviousAfter(uses, n - 1)[r] == uses[k].name;
        assert UsedLast(uses, n, r, k);
      }
    }
  }

  // ------------------------------------------------------------ files and dependencies, in plain terms

  ghost predicate Edits(package: string, op: Operation, file: string) {
    || file == package + "/" + op.module_ + ".py"
    || exists k :: 0 <= k < |op.registrations| && file == package + "/" + op.registrations[k].module_ + ".py"
  }

  lemma StrictlySorted(files: seq<string>)
    requires Sorted(files, Less) && Distinct(files)
    ensures forall i, j :: 0 <= i < j < |files| ==> Less(files[i], files[j])
  {
    forall i, j | 0 <= i < j < |files| ensures Less(files[i], files[j]) {
      LessTotal(files[i], files[j]);
    }
  }

  /** The files of an operation: its module's and those of the tables it registers in, each once, in
      ascending order. */
  lemma ResourcesExactly(package: string, op: Operation)
    ensures forall file :: file in Resources(package, op) <==> Edits(package, op, file)
    ensures forall i, j :: 0 <= i < j < |Resources(package, op)| ==> Less(Resources(package, op)[i], Resources(package, op)[j])
  {
    var tables := Tables(op);
    var paths := seq(|tables|, k requires 0 <= k < |tables| => PathOf(package, tables[k]));
    var all := [PathOf(package, op.module_)] + paths;
    var files := Sort(Dedup(all), Less);
    LessIsStrictWeak();
    SortSorted(Dedup(all), Less);
    DistinctOfPermutation(Dedup(all), files);
    StrictlySorted(files);
    forall file ensures file in files <==> Edits(package, op, file) {
      assert file in files <==> file in multiset(Dedup(all));
      PathsAre(package, op, paths, file);
    }
  }

  lemma PathsAre(package: string, op: Operation, paths: seq<string>, file: string)
    requires |paths| == |op.registrations|
    requires forall k :: 0 <= k < |paths| ==> paths[k] == PathOf(package, op.registrations[k].module_)
    ensures file in [PathOf(package, op.module_)] + paths <==> Edits(package, op, file)
  {
    if k :| 0 <= k < |op.registrations| && file == package + "/" + op.registrations[k].module_ + ".py" {
      assert paths[k] == file;
    }
  }

  /** The file has been edited by one of the first `n` operations. */
  ghost function UsedBefore(uses: seq<Footprint>, n: nat): string -> bool
    requires n <= |uses|
  {
    (file: string) => exists k :: 0 <= k < n && file in uses[k].files
  }

  /** Operation by operation, the latest user of each file. */
  ghost predicate LatestUsers(uses: seq<Footprint>, n: nat, files: seq<string>, users: seq<int>) {
    |users| == |files| && forall k :: 0 <= k < |files| ==> UsedLast(uses, n, files[k], users[k])
  }

  function NamesAt(uses: seq<Footprint>): int -> string {
    (k: int) => if 0 <= k < |uses| then uses[k].name else ""
  }

  lemma UsersOneMore(uses: seq<Footprint>, n: nat, files: seq<string>, first: string, users: seq<int>, k: int)
    requires n <= |uses| && LatestUsers(uses, n, files, users) && UsedLast(uses, n, first, k)
    ensures LatestUsers(uses, n, [first] + files, [k] + users)
    ensures Map(NamesAt(uses), [k] + users) == [uses[k].name] + Map(NamesAt(uses), users)
  {
    MapConcat(NamesAt(uses), [k], users);
    assert Map(NamesAt(uses), [k]) == [uses[k].name];
  }

  lemma {:induction false} PreviousAreUsers(uses: seq<Footprint>, n: nat, files: seq<string>) returns (users: seq<int>)
    requires n <= |uses|
    ensures LatestUsers(uses, n, Filter(files, UsedBefore(uses, n)), users)
    ensures PreviousUsers(PreviousAfter(uses, n), files) == Map(NamesAt(uses), users)
  {
    users := [];
    if files != [] {
      users := PreviousAreUsers(uses, n, files[1..]);
      LatestUser(uses, n, files[0]);
      if files[0] in PreviousAfter(uses, n) {
        var k :| UsedLast(uses, n, files[0], k) && PreviousAfter(uses, n)[files[0]] == uses[k].name;
        UsersOneMore(uses, n, Filter(files[1..], UsedBefore(uses, n)), files[0], users, k);
        users := [k] + users;
      }
    }
  }

  /** An operation waits, for each of its files in turn that an earlier operation has edited, for the
      latest one that has; and for each of them once. */
  lemma DependenciesExactly(uses: seq<Footprint>, i: nat)
    requires i < |uses|
    ensures exists users ::
      LatestUsers(uses, i, Filter(uses[i].files, UsedBefore(uses, i)), users) &&
      DepsOf(uses, i) == Dedup(Map(NamesAt(uses), users))
  {
    var users := PreviousAreUsers(uses, i, uses[i].files);
  }

  // ------------------------------------------------------------ who waits for whom

  /** Every edge goes back to an earlier operation that edits one of the same files. */
  lemma EdgesGoBack(uses: seq<Footprint>, i: nat, d: string)
    requires i < |uses| && d in DepsOf(uses, i)
    ensures exists j, r :: 0 <= j < i && uses[j].name == d && r in uses[i].files && r in uses[j].files
  {
    var files := uses[i].files;
    var previous := PreviousAfter(uses, i);
    var k :| 0 <= k < |files| && files[k] in previous && previous[files[k]] == d;
    LatestUser(uses, i, files[k]);
    var j :| UsedLast(uses, i, files[k], j) && previous[files[k]] == uses[j].name;
    assert files[k] in files && files[k] in uses[j].files;
  }

  /** The task of every operation depends at least on the previous users of its files. */
  ghost predicate Serialises(uses: seq<Footprint>, plan: seq<SubTask>) {
    && |plan| == |uses|
    && (forall i :: 0 <= i < |uses| ==> plan[i].taskId == uses[i].name)
    && (forall i, d :: 0 <= i < |uses| && d in DepsOf(uses, i) ==> d in plan[i].dependsOn)
  }

  /** Two operations that share a file are joined by a dependency path, from the later to the
      earlier one. */
  lemma {:induction false} SharersAreOrdered(uses: seq<Footprint>, plan: seq<SubTask>, i: nat, j: nat, r: string)
    requires DistinctIds(plan) && Serialises(uses, plan)
    requires i < j < |uses| && r in uses[i].files && r in uses[j].files
    ensures Reaches(GraphOf(plan), uses[j].name, uses[i].name)
    decreases j
  {
    var g := GraphOf(plan);
    LatestUser(uses, j, r);
    var previous := PreviousAfter(uses, j);
    var k :| UsedLast(uses, j, r, k) && previous[r] == uses[k].name;
    var n :| 0 <= n < |uses[j].files| && uses[j].files[n] == r;
    assert uses[k].name in DepsOf(uses, j);
    EdgeOfMember(plan, j, uses[k].name);
    EdgeReaches(g, uses[j].name, uses[k].name);
    if i < k {
      SharersAreOrdered(uses, plan, i, k, r);
      ReachesTransitive(g, uses[j].name, uses[k].name, uses[i].name);
    }
  }

  /** Layering a serialised plan never puts two operations that share a file into one wave,
      whatever else the tasks depend on. */
  lemma WavesNeverShareFiles(uses: seq<Footprint>, plan: seq<SubTask>, w: nat, i: nat, j: nat, r: string)
    requires DistinctIds(plan) && Serialises(uses, plan)
    requires i < |uses| && j < |uses| && i != j && r in uses[i].files && r in uses[j].files
    requires w < |Peel(plan, {}).waves|
    ensures !(HasId(Peel(plan, {}).waves[w], uses[i].name) && HasId(Peel(plan, {}).waves[w], uses[j].name))
  {
    var waves: seq<seq<SubTask>> := Peel(plan, {}).waves;
    if HasId(waves[w], uses[i].name) && HasId(waves[w], uses[j].name) {
      var early, late := if i < j then i else j, if i < j then j else i;
      SharersAreOrdered(uses, plan, early, late, r);
      var p :| WalkBetween(GraphOf(plan), p, uses[late].name, uses[early].name);
      WalkDescends(plan, w, p);
      var m :| 0 <= m < w + 2 - |p| && HasId(waves[m], uses[early].name);
      WavesDisjoint(plan, {}, m, uses[early].name);
    }
  }

  // ------------------------------------------------------------ the benchmark's plan

  /** The sub-tasks of a file-granularity run: own dependencies first, then the file ones. */
  function RunPlan(ops: seq<Operation>, uses: seq<Footprint>): (plan: seq<SubTask>)
    requires |uses| == |ops|
    ensures |plan| == |ops|
  {
    seq(|ops|, i requires 0 <= i < |ops| =>
      SubTask(ops[i].name, "", [], [], Dedup(ops[i].dependsOn + DepsOf(uses, i)), []))
  }

  ghost function NotDeclared(op: Operation): string -> bool {
    (d: string) => d !in op.dependsOn
  }

  /** A task waits for what its operation declares, and then for what it does not declare but shares
      a file with. */
  lemma RunDependsExactly(ops: seq<Operation>, uses: seq<Footprint>, i: nat)
    requires |uses| == |ops| && i < |ops|
    ensures
      var task := RunPlan(ops, uses)[i];
      task.taskId == ops[i].name && task.dependsOn == Dedup(ops[i].dependsOn) + Filter(DepsOf(uses, i), NotDeclared(ops[i]))
  {
    DedupAppends(ops[i].dependsOn, DepsOf(uses, i), NotDeclared(ops[i]));
  }

  ghost predicate NamedBefore(ops: seq<Operation>, i: int, d: string) {
    exists j :: 0 <= j < i < |ops| && ops[j].name == d
  }

  /** Operations declare dependencies on earlier operations only. */
  ghost predicate DeclaresBackwards(ops: seq<Operation>) {
    forall i, d :: 0 <= i < |ops| && d in ops[i].dependsOn ==> NamedBefore(ops, i, d)
  }

  /** The plan of a run is serialised: `WavesNeverShareFiles` applies to it. */
  lemma RunSerialises(package: string, ops: seq<Operation>)
    requires DistinctNames(ops)
    ensures
      var plan := RunPlan(ops, Footprints(package, ops));
      DistinctIds(plan) && Serialises(Footprints(package, ops), plan)
  {
    var uses := Footprints(package, ops);
    assert forall i :: 0 <= i < |ops| ==> uses[i].name == ops[i].name;
  }

  /** When operations only depend on earlier ones, the run's plan is acyclic and complete, and
      layering it leaves nothing over. */
  lemma {:induction false} RunLayers(package: string, ops: seq<Operation>)
    requires DistinctNames(ops) && DeclaresBackwards(ops)
    ensures
      var plan := RunPlan(ops, Footprints(package, ops));
      && Acyclic(GraphOf(plan)) && Closed(GraphOf(plan))
      && Shown(Peel(plan, {})) == Peel(plan, {}).waves
  {
    var uses := Footprints(package, ops);
    var plan := RunPlan(ops, uses);
    RunSerialises(package, ops);
    forall i, d | 0 <= i < |plan| && d in plan[i].dependsOn ensures IdBefore(plan, i, d) {
      if d in DepsOf(uses, i) {
        EdgesGoBack(uses, i, d);
        var j :| 0 <= j < i && uses[j].name == d;
        assert plan[j].taskId == d;
      } else {
        assert NamedBefore(ops, i, d);
        var j :| 0 <= j < i && ops[j].name == d;
        assert plan[j].taskId == d;
      }
    }
    BackwardsIsAcyclic(plan);
    NoLeftovers(plan);
  }

  /** Dependency building followed by layering: every wave shown for a file-granularity run is
      free of file conflicts. */
  lemma {:induction false} RunWavesNeverShareFiles(package: string, ops: seq<Operation>, w: nat, i: nat, j: nat, r: string)
    requires DistinctNames(ops) && DeclaresBackwards(ops)
    requires i < |ops| && j < |ops| && i != j
    requires r in Resources(package, ops[i]) && r in Resources(package, ops[j])
    requires w < |Shown(Peel(RunPlan(ops, Footprints(package, ops)), {}))|
    ensures
      var wave := Shown(Peel(RunPlan(ops, Footprints(package, ops)), {}))[w];
      !(HasId(wave, ops[i].name) && HasId(wave, ops[j].name))
  {
    RunLayers(package, ops);
    RunSerialises(package, ops);
    WavesNeverShareFiles(Footprints(package, ops), RunPlan(ops, Footprints(package, ops)), w, i, j, r);
  }
}
