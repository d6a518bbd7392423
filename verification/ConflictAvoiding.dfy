/** Assigning operations to agents so that no two agents edit one shared table. */
module ConflictAvoiding {
  import opened Workload

  // ------------------------------------------------------------ connected tables

  /** The tables each operation edits, operation by operation. */
  type Edits = seq<seq<string>>

  function EditsOf(ops: seq<Operation>): (edits: Edits)
    ensures |edits| == |ops|
  {
    seq(|ops|, i requires 0 <= i < |ops| => Tables(ops[i]))
  }

  /** Some operation edits both tables. */
  ghost predicate Linked(edits: Edits, a: string, b: string) {
    exists i :: 0 <= i < |edits| && a in edits[i] && b in edits[i]
  }

  ghost predicate IsChain(edits: Edits, p: seq<string>) {
    |p| > 0 && forall i :: 0 <= i < |p| - 1 ==> Linked(edits, p[i], p[i + 1])
  }

  /** A chain of operations, each sharing a table with the next, joins the two tables. */
  ghost predicate Connected(edits: Edits, a: string, b: string) {
    exists p :: IsChain(edits, p) && p[0] == a && p[|p| - 1] == b
  }

  lemma ConnectedReflexive(edits: Edits, a: string)
    ensures Connected(edits, a, a)
  {
    assert IsChain(edits, [a]);
  }

  lemma LinkedConnected(edits: Edits, a: string, b: string)
    requires Linked(edits, a, b)
    ensures Connected(edits, a, b)
  {
    var p := [a, b];
    assert IsChain(edits, p) && p[0] == a && p[|p| - 1] == b;
  }

  lemma ConnectedTransitive(edits: Edits, a: string, b: string, c: string)
    requires Connected(edits, a, b) && Connected(edits, b, c)
    ensures Connected(edits, a, c)
  {
    var p :| IsChain(edits, p) && p[0] == a && p[|p| - 1] == b;
    var q :| IsChain(edits, q) && q[0] == b && q[|q| - 1] == c;
    var r := p + q[1..];
    forall i | 0 <= i < |r| - 1 ensures Linked(edits, r[i], r[i + 1]) {
      if i < |p| - 1 {
        assert r[i] == p[i] && r[i + 1] == p[i + 1];
      } else {
        assert r[i] == q[i - |p| + 1] && r[i + 1] == q[i - |p| + 2];
      }
    }
    assert IsChain(edits, r) && r[0] == a && r[|r| - 1] == c;
  }

  lemma {:induction false} ChainReversed(edits: Edits, p: seq<string>)
    requires IsChain(edits, p)
    ensures Connected(edits, p[|p| - 1], p[0])
    decreases |p|
  {
    ConnectedReflexive(edits, p[0]);
    if |p| > 1 {
      ChainReversed(edits, p[1..]);
      assert Linked(edits, p[0], p[1]);
      assert Linked(edits, p[1], p[0]);
      LinkedConnected(edits, p[1], p[0]);
      ConnectedTransitive(edits, p[|p| - 1], p[1], p[0]);
    }
  }

  lemma ConnectedSymmetric(edits: Edits, a: string, b: string)
    requires Connected(edits, a, b)
    ensures Connected(edits, b, a)
  {
    var p :| IsChain(edits, p) && p[0] == a && p[|p| - 1] == b;
    ChainReversed(edits, p);
  }

  // ------------------------------------------------------------ the union-find

  type Parents = map<string, string>

  /** What the forest promises of one table: its parent is in the same tree and, unless it is
      the root, strictly lower. */
  ghost predicate NodeOk(parent: Parents, root: Parents, height: map<string, nat>, t: string) {
    && t in parent && t in root && t in height
    && parent[t] in parent && parent[t] in root && parent[t] in height && root[t] in parent
    && root[parent[t]] == root[t] && parent[root[t]] == root[t]
    && (parent[t] == t <==> root[t] == t)
    && (parent[t] != t ==> height[parent[t]] < height[t])
  }

  ghost predicate Forest(parent: Parents, root: Parents, height: map<string, nat>) {
    && root.Keys == parent.Keys && height.Keys == parent.Keys
    && (forall t {:trigger NodeOk(parent, root, height, t)} :: t in parent ==> NodeOk(parent, root, height, t))
  }

  /** Pointing a table at its grandparent leaves every root where it was. */
  lemma HalvingKeepsForest(parent: Parents, root: Parents, height: map<string, nat>, t: string)
    requires Forest(parent, root, height) && t in parent && parent[t] != t
    ensures parent[t] in parent && parent[parent[t]] in parent
    ensures Forest(parent[t := parent[parent[t]]], root, height)
    ensures root[parent[parent[t]]] == root[t] && height[parent[parent[t]]] < height[t]
  {
    assert NodeOk(parent, root, height, t);
    assert NodeOk(parent, root, height, parent[t]);
    var grand := parent[parent[t]];
    assert NodeOk(parent, root, height, grand);
    var next := parent[t := grand];
    forall x | x in next ensures NodeOk(next, root, height, x) {
      assert NodeOk(parent, root, height, x);
    }
    assert next.Keys == parent.Keys;
  }

  function JoinedRoots(root: Parents, from: string, to: string): (joined: Parents)
    ensures joined.Keys == root.Keys
  {
    map t | t in root :: if root[t] == from then to else root[t]
  }

  function Lifted(root: Parents, height: map<string, nat>, from: string, rise: nat): (lifted: map<string, nat>)
    requires root.Keys == height.Keys
    ensures lifted.Keys == height.Keys
  {
    map t | t in height :: if root[t] == from then height[t] + rise else height[t]
  }

  lemma UnionKeepsNode(parent: Parents, root: Parents, height: map<string, nat>, from: string, to: string, t: string)
    requires root.Keys == parent.Keys && height.Keys == parent.Keys
    requires NodeOk(parent, root, height, from) && NodeOk(parent, root, height, to) && NodeOk(parent, root, height, t)
    requires from != to && parent[from] == from && parent[to] == to
    ensures NodeOk(parent[from := to], JoinedRoots(root, from, to), Lifted(root, height, from, height[to] + 1), t)
  {
    var next, joined, lifted := parent[from := to], JoinedRoots(root, from, to), Lifted(root, height, from, height[to] + 1);
    var p := next[t];
    assert joined[p] == joined[t];
    assert next[joined[t]] == joined[t];
    assert p != t ==> lifted[p] < lifted[t];
  }

  /** Hanging one root below another joins exactly their two trees. */
  lemma UnionKeepsForest(parent: Parents, root: Parents, height: map<string, nat>, from: string, to: string)
    requires Forest(parent, root, height)
    requires from in parent && to in parent && from != to && parent[from] == from && parent[to] == to
    ensures Forest(parent[from := to], JoinedRoots(root, from, to), Lifted(root, height, from, height[to] + 1))
  {
    var next, joined, lifted := parent[from := to], JoinedRoots(root, from, to), Lifted(root, height, from, height[to] + 1);
    assert next.Keys == parent.Keys;
    forall x | x in parent ensures NodeOk(next, joined, lifted, x) {
      assert NodeOk(parent, root, height, from) && NodeOk(parent, root, height, to);
      assert NodeOk(parent, root, height, x);
      UnionKeepsNode(parent, root, height, from, to, x);
    }
  }

  /** The `parent` dictionary with its two nested functions. `root` and `height` are what makes
      it a forest: following parents descends in height and ends at the root. */
  class UnionFind {
    var parent: Parents
    ghost var root: Parents
    ghost var height: map<string, nat>

    ghost predicate Valid()
      reads this
    {
      Forest(parent, root, height)
    }

    constructor (tables: seq<string>)
      ensures Valid()
      ensures forall t :: t in root <==> t in tables
      ensures forall t :: t in root ==> root[t] == t
    {
      parent := map t | t in tables :: t;
      root := map t | t in tables :: t;
      height := map t | t in tables :: 0;
    }

    /** Follow parents to the root, pointing every second node at its grandparent. */
    method Find(start: string) returns (table: string)
      requires Valid() && start in root
      modifies this`parent
      ensures Valid()
      ensures table == root[start] && table in parent && parent[table] == table
    {
      table := start;
      while parent[table] != table
        invariant Valid() && table in parent && table in height
        invariant root[table] == root[start]
        decreases height[table]
      {
        HalvingKeepsForest(parent, root, height, table);
        parent := parent[table := parent[parent[table]]];
        table := parent[table];
      }
      assert NodeOk(parent, root, height, table);
    }

    /** Make one root a child of another. */
    method Hang(below: string, rootTable: string)
      requires Valid() && below in parent && rootTable in parent && below != rootTable
      requires parent[below] == below && parent[rootTable] == rootTable
      modifies this
      ensures Valid()
      ensures root == JoinedRoots(old(root), below, rootTable)
    {
      UnionKeepsForest(parent, root, height, below, rootTable);
      parent := parent[below := rootTable];
      height := Lifted(root, height, below, height[rootTable] + 1);
      root := JoinedRoots(root, below, rootTable);
    }

    /** Make the two trees one. */
    method Union(left: string, right: string)
      requires Valid() && left in root && right in root
      modifies this
      ensures Valid()
      ensures root == JoinedRoots(old(root), old(root[right]), old(root[left]))
    {
      var leftRoot := Find(left);
      var rightRoot := Find(right);
      if leftRoot != rightRoot {
        assert NodeOk(parent, root, height, left);
        Hang(rightRoot, leftRoot);
      } else {
        assert root == JoinedRoots(root, rightRoot, leftRoot);
      }
    }

    method Knows(table: string) returns (known: bool)
      requires Valid()
      ensures known <==> table in root
    {
      known := table in parent;
    }
  }

  // ------------------------------------------------------------ the assignment

  ghost predicate Together(root: Parents, a: string, b: string) {
    a in root && b in root && root[a] == root[b]
  }

  /** Equal roots only ever mean connected tables. */
  ghost predicate Sound(edits: Edits, root: Parents) {
    forall a, b {:trigger Together(root, a, b)} :: Together(root, a, b) ==> Connected(edits, a, b)
  }

  /** The tables of one operation, as far as they have been united. */
  ghost predicate United(tables: seq<string>, root: Parents, n: int) {
    forall k :: 1 <= k < n && k < |tables| ==> Together(root, tables[0], tables[k])
  }

  lemma UnionKeepsTogether(root: Parents, from: string, to: string, a: string, b: string)
    requires Together(root, a, b)
    ensures Together(JoinedRoots(root, from, to), a, b)
  {
  }

  lemma UnionKeepsSound(edits: Edits, root: Parents, left: string, right: string)
    requires Sound(edits, root) && left in root && right in root && Linked(edits, left, right)
    ensures Sound(edits, JoinedRoots(root, root[right], root[left]))
  {
    var joined := JoinedRoots(root, root[right], root[left]);
    forall a, b | Together(joined, a, b) ensures Connected(edits, a, b) {
      if root[a] == root[b] {
        assert Together(root, a, b);
      } else {
        var l, r := if root[b] == root[right] then a else b, if root[b] == root[right] then b else a;
        assert Together(root, l, left) && Together(root, right, r);
        LinkedConnected(edits, left, right);
        ConnectedTransitive(edits, l, left, right);
        ConnectedTransitive(edits, l, right, r);
        ConnectedSymmetric(edits, l, r);
      }
    }
  }

  /** Once every operation's tables are united, connected tables have equal roots. */
  lemma {:induction false} ChainTogether(edits: Edits, root: Parents, p: seq<string>)
    requires forall j :: 0 <= j < |edits| ==> United(edits[j], root, |edits[j]|)
    requires IsChain(edits, p) && p[0] in root
    ensures Together(root, p[0], p[|p| - 1])
    decreases |p|
  {
    if |p| > 1 {
      assert Linked(edits, p[0], p[1]);
      var j :| 0 <= j < |edits| && p[0] in edits[j] && p[1] in edits[j];
      var k :| 0 <= k < |edits[j]| && edits[j][k] == p[0];
      var l :| 0 <= l < |edits[j]| && edits[j][l] == p[1];
      assert United(edits[j], root, |edits[j]|);
      assert Together(root, p[0], p[1]);
      ChainTogether(edits, root, p[1..]);
    }
  }

  ghost predicate SameComponent(edits: Edits, i: int, j: int) {
    0 <= i < |edits| && 0 <= j < |edits| && edits[i] != [] && edits[j] != [] &&
    Connected(edits, edits[i][0], edits[j][0])
  }

  /** Operation `i` is the first one of its component. */
  ghost predicate Opens(edits: Edits, i: int) {
    0 <= i < |edits| && edits[i] != [] && forall j :: 0 <= j < i ==> !SameComponent(edits, j, i)
  }

  /** How many components the first `n` operations open. */
  ghost function Opened(edits: Edits, n: nat): nat
    requires n <= |edits|
  {
    if n == 0 then 0 else Opened(edits, n - 1) + if Opens(edits, n - 1) then 1 else 0
  }

  /** An operation without tables takes its place in a rotation; so does a component, in the
      order in which components are first met; and a component keeps its agent. */
  ghost predicate AgentFits(edits: Edits, numAgents: int, agents: seq<int>, i: int) {
    && numAgents >= 1 && 0 <= i < |agents| && i < |edits|
    && (edits[i] == [] ==> agents[i] == i % numAgents)
    && (Opens(edits, i) ==> agents[i] == Opened(edits, i) % numAgents)
    && (forall j :: 0 <= j < i && SameComponent(edits, j, i) ==> agents[j] == agents[i])
  }

  ghost predicate AssignsComponents(edits: Edits, numAgents: int, agents: seq<int>) {
    |agents| <= |edits| && forall i :: 0 <= i < |agents| ==> AgentFits(edits, numAgents, agents, i)
  }

  ghost predicate AllKnown(edits: Edits, tables: seq<string>) {
    forall i, t :: 0 <= i < |edits| && t in edits[i] ==> t in tables
  }

  datatype Assignment = NoAgents | UnknownTable | Assigned(agents: seq<int>)

  /** Whatever was together before is together after. */
  ghost predicate Coarsens(before: Parents, after: Parents) {
    && before.Keys == after.Keys
    && forall a, b {:trigger Together(before, a, b)} :: Together(before, a, b) ==> Together(after, a, b)
  }

  lemma UnitedStays(tables: seq<string>, before: Parents, after: Parents, n: int)
    requires Coarsens(before, after) && United(tables, before, n)
    ensures United(tables, after, n)
  {
    forall k | 1 <= k < n && k < |tables| ensures Together(after, tables[0], tables[k]) {
      assert Together(before, tables[0], tables[k]);
    }
  }

  /** Unite the tables of one operation; `known` is false when one of them is not shared. */
  method UniteTables(edits: Edits, i: nat, forest: UnionFind) returns (known: bool)
    requires forest.Valid() && i < |edits| && Sound(edits, forest.root)
    modifies forest
    ensures forest.Valid() && Sound(edits, forest.root) && Coarsens(old(forest.root), forest.root)
    ensures known ==> United(edits[i], forest.root, |edits[i]|)
    ensures !known ==> exists k :: 0 <= k < |edits[i]| && edits[i][k] !in forest.root
  {
    var tables := edits[i];
    if tables == [] {
      return true;
    }
    for k := 1 to |tables|
      invariant forest.Valid() && Sound(edits, forest.root) && Coarsens(old(forest.root), forest.root)
      invariant United(tables, forest.root, k)
    {
      var knownFirst := forest.Knows(tables[0]);
      var knownOther := forest.Knows(tables[k]);
      if !knownFirst || !knownOther {
        return false;
      }
      ghost var before := forest.root;
      assert Linked(edits, tables[0], tables[k]);
      UnionKeepsSound(edits, before, tables[0], tables[k]);
      forest.Union(tables[0], tables[k]);
      forall a, b | Together(before, a, b) ensures Together(forest.root, a, b) {
        UnionKeepsTogether(before, before[tables[k]], before[tables[0]], a, b);
      }
      UnitedStays(tables, before, forest.root, k);
    }
    return true;
  }

  lemma SameRootSameComponent(edits: Edits, root: Parents, i: int, j: int)
    requires Sound(edits, root)
    requires forall k :: 0 <= k < |edits| ==> United(edits[k], root, |edits[k]|)
    requires 0 <= i < |edits| && 0 <= j < |edits| && edits[i] != [] && edits[j] != []
    requires edits[i][0] in root
    ensures SameComponent(edits, i, j) <==> Together(root, edits[i][0], edits[j][0])
  {
    if SameComponent(edits, i, j) {
      var p :| IsChain(edits, p) && p[0] == edits[i][0] && p[|p| - 1] == edits[j][0];
      ChainTogether(edits, root, p);
    }
  }

  /** What the owner table holds after the first `n` operations. */
  ghost predicate OwnersOf(edits: Edits, root: Parents, owner: map<string, int>, agents: seq<int>, n: nat) {
    && n <= |edits| && |agents| == n
    && |owner| == Opened(edits, n)
    && (forall j :: 0 <= j < n && edits[j] != [] ==>
          edits[j][0] in root && root[edits[j][0]] in owner && owner[root[edits[j][0]]] == agents[j])
    && (forall c :: c in owner ==> MetBefore(edits, root, n, c))
  }

  /** One of the first `n` operations edits a table of the tree with root `c`. */
  ghost predicate MetBefore(edits: Edits, root: Parents, n: int, c: string) {
    exists j :: 0 <= j < n && j < |edits| && edits[j] != [] && edits[j][0] in root && root[edits[j][0]] == c
  }

  method AssignOwners(edits: Edits, forest: UnionFind, numAgents: int) returns (r: Assignment)
    requires numAgents >= 1 && forest.Valid() && Sound(edits, forest.root)
    requires forall k :: 0 <= k < |edits| ==> United(edits[k], forest.root, |edits[k]|)
    modifies forest
    ensures r.UnknownTable? <==> exists i :: 0 <= i < |edits| && edits[i] != [] && edits[i][0] !in old(forest.root)
    ensures r.UnknownTable? || r.Assigned?
    ensures r.Assigned? ==> |r.agents| == |edits| && AssignsComponents(edits, numAgents, r.agents)
  {
    ghost var root := forest.root;
    var owner: map<string, int> := map[];
    var agents: seq<int> := [];
    for i := 0 to |edits|
      invariant forest.Valid() && forest.root == root
      invariant OwnersOf(edits, root, owner, agents, i)
      invariant AssignsComponents(edits, numAgents, agents)
    {
      if edits[i] == [] {
        LongerStillFits(edits, numAgents, agents, i % numAgents);
        agents := agents + [i % numAgents];
        continue;
      }
      var known := forest.Knows(edits[i][0]);
      if !known {
        return UnknownTable;
      }
      var component := forest.Find(edits[i][0]);
      owner, agents := AssignToComponent(edits, root, owner, agents, i, component, numAgents);
    }
    return Assigned(agents);
  }

  /** The agent of the component, drawn in rotation when the component is met for the first time. */
  method AssignToComponent(edits: Edits, ghost root: Parents, owner: map<string, int>, agents: seq<int>, i: nat, component: string, numAgents: int)
      returns (owners: map<string, int>, longer: seq<int>)
    requires Sound(edits, root) && OwnersOf(edits, root, owner, agents, i) && i < |edits| && numAgents >= 1
    requires forall k :: 0 <= k < |edits| ==> United(edits[k], root, |edits[k]|)
    requires edits[i] != [] && edits[i][0] in root && component == root[edits[i][0]]
    requires AssignsComponents(edits, numAgents, agents)
    ensures OwnersOf(edits, root, owners, longer, i + 1) && AssignsComponents(edits, numAgents, longer)
  {
    var next := if component in owner then owner[component] else |owner| % numAgents;
    ComponentAgentFits(edits, root, owner, agents, i, numAgents, next);
    LongerStillFits(edits, numAgents, agents, next);
    OwnersAfter(edits, root, owner, agents, i, next);
    owners := owner[component := next];
    longer := agents + [next];
  }

  /** An operation opens a component exactly when its root has no owner yet. */
  lemma OpensWhenNew(edits: Edits, root: Parents, owner: map<string, int>, agents: seq<int>, i: nat)
    requires Sound(edits, root) && OwnersOf(edits, root, owner, agents, i) && i < |edits|
    requires forall k :: 0 <= k < |edits| ==> United(edits[k], root, |edits[k]|)
    requires edits[i] != [] && edits[i][0] in root
    ensures Opens(edits, i) <==> root[edits[i][0]] !in owner
  {
    var c := root[edits[i][0]];
    if c in owner {
      var j :| 0 <= j < i && edits[j] != [] && edits[j][0] in root && root[edits[j][0]] == c;
      SameRootSameComponent(edits, root, j, i);
      assert SameComponent(edits, j, i);
    } else {
      forall j | 0 <= j < i ensures !SameComponent(edits, j, i) {
        if SameComponent(edits, j, i) {
          SameRootSameComponent(edits, root, j, i);
        }
      }
    }
  }

  lemma ComponentAgentFits(edits: Edits, root: Parents, owner: map<string, int>, agents: seq<int>, i: nat, numAgents: int, next: int)
    requires Sound(edits, root) && OwnersOf(edits, root, owner, agents, i) && i < |edits| && numAgents >= 1
    requires forall k :: 0 <= k < |edits| ==> United(edits[k], root, |edits[k]|)
    requires edits[i] != [] && edits[i][0] in root
    requires next == if root[edits[i][0]] in owner then owner[root[edits[i][0]]] else |owner| % numAgents
    ensures AgentFits(edits, numAgents, agents + [next], i)
  {
    OpensWhenNew(edits, root, owner, agents, i);
    forall j | 0 <= j < i && SameComponent(edits, j, i) ensures agents[j] == next {
      SameRootSameComponent(edits, root, j, i);
    }
  }

  lemma LongerStillFits(edits: Edits, numAgents: int, agents: seq<int>, next: int)
    requires AssignsComponents(edits, numAgents, agents) && |agents| < |edits|
    requires AgentFits(edits, numAgents, agents + [next], |agents|)
    ensures AssignsComponents(edits, numAgents, agents + [next])
  {
    forall i | 0 <= i < |agents| ensures AgentFits(edits, numAgents, agents + [next], i) {
      assert AgentFits(edits, numAgents, agents, i);
    }
  }

  /** Recording the owner of operation `i`'s component. */
  lemma OwnersAfter(edits: Edits, root: Parents, owner: map<string, int>, agents: seq<int>, i: nat, next: int)
    requires Sound(edits, root) && OwnersOf(edits, root, owner, agents, i) && i < |edits|
    requires forall k :: 0 <= k < |edits| ==> United(edits[k], root, |edits[k]|)
    requires edits[i] != [] && edits[i][0] in root
    requires root[edits[i][0]] in owner ==> next == owner[root[edits[i][0]]]
    ensures OwnersOf(edits, root, owner[root[edits[i][0]] := next], agents + [next], i + 1)
  {
    OpensWhenNew(edits, root, owner, agents, i);
    var c := root[edits[i][0]];
    var later := owner[c := next];
    forall x | x in later ensures MetBefore(edits, root, i + 1, x) {
      assert x in owner ==> MetBefore(edits, root, i, x);
    }
  }

  // ------------------------------------------------------------ the assignment, operation by operation

  /** Two operations register in one table. */
  ghost predicate ShareTable(ops: seq<Operation>, i: int, j: int) {
    0 <= i < |ops| && 0 <= j < |ops| &&
    exists k, l :: 0 <= k < |ops[i].registrations| && 0 <= l < |ops[j].registrations| &&
      ops[i].registrations[k].module_ == ops[j].registrations[l].module_
  }

  ghost predicate SharingChain(ops: seq<Operation>, path: seq<int>) {
    path != [] && forall k :: 0 <= k < |path| - 1 ==> ShareTable(ops, path[k], path[k + 1])
  }

  /** One operation leads to the other through operations that share tables. */
  ghost predicate Related(ops: seq<Operation>, i: int, j: int) {
    exists path :: |path| > 1 && path[0] == i && path[|path| - 1] == j && SharingChain(ops, path)
  }

  /** Operation `i` registers somewhere and is related to no earlier one. */
  ghost predicate IsFirst(ops: seq<Operation>, i: int) {
    0 <= i < |ops| && ops[i].registrations != [] && forall j :: 0 <= j < i ==> !Related(ops, j, i)
  }

  ghost function FirstsBefore(ops: seq<Operation>, i: int): set<int> {
    set j | 0 <= j < i && IsFirst(ops, j)
  }

  /** An operation that registers nowhere takes the agent of its index; a related one the agent of
      every earlier operation it is related to; any other one the agent whose turn it is. */
  ghost predicate AgentsRotate(ops: seq<Operation>, numAgents: int, agents: seq<int>)
    requires numAgents >= 1 && |agents| == |ops|
  {
    forall i :: 0 <= i < |ops| ==>
      && (ops[i].registrations == [] ==> agents[i] == i % numAgents)
      && (IsFirst(ops, i) ==> agents[i] == |FirstsBefore(ops, i)| % numAgents)
      && (forall j :: 0 <= j < i && Related(ops, j, i) ==> agents[j] == agents[i])
  }

  lemma SharedEdit(ops: seq<Operation>, i: int, j: int, t: string)
    requires 0 <= i < |ops| && 0 <= j < |ops| && t in EditsOf(ops)[i] && t in EditsOf(ops)[j]
    ensures ShareTable(ops, i, j)
  {
    var k :| 0 <= k < |EditsOf(ops)[i]| && EditsOf(ops)[i][k] == t;
    var l :| 0 <= l < |EditsOf(ops)[j]| && EditsOf(ops)[j][l] == t;
    assert ops[i].registrations[k].module_ == ops[j].registrations[l].module_;
  }

  lemma ShareEdits(ops: seq<Operation>, i: int, j: int)
    requires ShareTable(ops, i, j)
    ensures SameComponent(EditsOf(ops), i, j)
  {
    var edits := EditsOf(ops);
    var k, l :| 0 <= k < |ops[i].registrations| && 0 <= l < |ops[j].registrations| &&
      ops[i].registrations[k].module_ == ops[j].registrations[l].module_;
    assert edits[i][k] in edits[i] && edits[j][l] in edits[j] && edits[i][k] == edits[j][l];
    assert Linked(edits, edits[i][0], edits[i][k]) && Linked(edits, edits[i][k], edits[j][0]);
    LinkedConnected(edits, edits[i][0], edits[i][k]);
    LinkedConnected(edits, edits[i][k], edits[j][0]);
    ConnectedTransitive(edits, edits[i][0], edits[i][k], edits[j][0]);
  }

  lemma {:induction false} ChainOfOperations(ops: seq<Operation>, path: seq<int>)
    requires SharingChain(ops, path) && |path| > 1
    ensures SameComponent(EditsOf(ops), path[0], path[|path| - 1])
    decreases |path|
  {
    assert ShareTable(ops, path[0], path[1]);
    ShareEdits(ops, path[0], path[1]);
    if |path| > 2 {
      var rest := path[1..];
      forall k | 0 <= k < |rest| - 1 ensures ShareTable(ops, rest[k], rest[k + 1]) {
        assert ShareTable(ops, path[k + 1], path[k + 2]);
      }
      ChainOfOperations(ops, rest);
      var edits := EditsOf(ops);
      ConnectedTransitive(edits, edits[path[0]][0], edits[path[1]][0], edits[path[|path| - 1]][0]);
    }
  }

  lemma StepThenRelated(ops: seq<Operation>, i: int, m: int, j: int)
    requires ShareTable(ops, i, m) && Related(ops, m, j)
    ensures Related(ops, i, j)
  {
    var path :| |path| > 1 && path[0] == m && path[|path| - 1] == j && SharingChain(ops, path);
    var longer := [i] + path;
    forall k | 0 <= k < |longer| - 1 ensures ShareTable(ops, longer[k], longer[k + 1]) {
      assert k > 0 ==> ShareTable(ops, path[k - 1], path[k]);
    }
    assert SharingChain(ops, longer);
  }

  lemma {:induction false} ChainOfTables(ops: seq<Operation>, tables: seq<string>, i: int, j: int)
    requires IsChain(EditsOf(ops), tables) && 0 <= i < |ops| && 0 <= j < |ops|
    requires tables[0] in EditsOf(ops)[i] && tables[|tables| - 1] in EditsOf(ops)[j]
    ensures Related(ops, i, j)
    decreases |tables|
  {
    if |tables| == 1 {
      SharedEdit(ops, i, j, tables[0]);
      assert SharingChain(ops, [i, j]);
    } else {
      assert Linked(EditsOf(ops), tables[0], tables[1]);
      var m :| 0 <= m < |ops| && tables[0] in EditsOf(ops)[m] && tables[1] in EditsOf(ops)[m];
      SharedEdit(ops, i, m, tables[0]);
      ChainOfTables(ops, tables[1..], m, j);
      StepThenRelated(ops, i, m, j);
    }
  }

  /** Operations are related exactly when their tables are connected. */
  lemma RelatedExactly(ops: seq<Operation>, i: int, j: int)
    ensures Related(ops, i, j) <==> SameComponent(EditsOf(ops), i, j)
  {
    var edits := EditsOf(ops);
    if path :| |path| > 1 && path[0] == i && path[|path| - 1] == j && SharingChain(ops, path) {
      ChainOfOperations(ops, path);
    }
    if SameComponent(edits, i, j) {
      var tables :| IsChain(edits, tables) && tables[0] == edits[i][0] && tables[|tables| - 1] == edits[j][0];
      ChainOfTables(ops, tables, i, j);
    }
  }

  lemma FirstExactly(ops: seq<Operation>, i: int)
    ensures IsFirst(ops, i) <==> Opens(EditsOf(ops), i)
  {
    forall j ensures Related(ops, j, i) <==> SameComponent(EditsOf(ops), j, i) {
      RelatedExactly(ops, j, i);
    }
  }

  lemma {:induction false} FirstsCounted(ops: seq<Operation>, n: nat)
    requires n <= |ops|
    ensures |FirstsBefore(ops, n)| == Opened(EditsOf(ops), n)
  {
    if n == 0 {
      assert FirstsBefore(ops, 0) == {};
    } else {
      FirstsCounted(ops, n - 1);
      FirstExactly(ops, n - 1);
      var one := if IsFirst(ops, n - 1) then {n - 1} else {};
      assert FirstsBefore(ops, n) == FirstsBefore(ops, n - 1) + one;
    }
  }

  lemma ComponentsRotate(ops: seq<Operation>, numAgents: int, agents: seq<int>)
    requires numAgents >= 1 && |agents| == |ops| && AssignsComponents(EditsOf(ops), numAgents, agents)
    ensures AgentsRotate(ops, numAgents, agents)
  {
    forall i | 0 <= i < |ops|
      ensures ops[i].registrations == [] ==> agents[i] == i % numAgents
      ensures IsFirst(ops, i) ==> agents[i] == |FirstsBefore(ops, i)| % numAgents
      ensures forall j :: 0 <= j < i && Related(ops, j, i) ==> agents[j] == agents[i]
    {
      assert AgentFits(EditsOf(ops), numAgents, agents, i);
      FirstExactly(ops, i);
      FirstsCounted(ops, i);
      forall j | 0 <= j < i && Related(ops, j, i) ensures agents[j] == agents[i] {
        RelatedExactly(ops, j, i);
      }
    }
  }

  /** Some operation registers in a table that is not shared. */
  ghost predicate RegistersElsewhere(ops: seq<Operation>, sharedModules: seq<string>) {
    exists i, k :: 0 <= i < |ops| && 0 <= k < |ops[i].registrations| && ops[i].registrations[k].module_ !in sharedModules
  }

  lemma KnownExactly(ops: seq<Operation>, sharedModules: seq<string>)
    ensures AllKnown(EditsOf(ops), sharedModules) <==> !RegistersElsewhere(ops, sharedModules)
  {
    var edits := EditsOf(ops);
    if AllKnown(edits, sharedModules) {
      forall i, k | 0 <= i < |ops| && 0 <= k < |ops[i].registrations|
        ensures ops[i].registrations[k].module_ in sharedModules
      {
        assert edits[i][k] in edits[i];
      }
    } else {
      var i, t :| 0 <= i < |edits| && t in edits[i] && t !in sharedModules;
      var k :| 0 <= k < |edits[i]| && edits[i][k] == t;
      assert ops[i].registrations[k].module_ !in sharedModules;
    }
  }

  method AssignOperations(ops: seq<Operation>, sharedModules: seq<string>, numAgents: int) returns (r: Assignment)
    ensures r.NoAgents? <==> numAgents < 1
    ensures r.UnknownTable? <==> numAgents >= 1 && RegistersElsewhere(ops, sharedModules)
    ensures r.Assigned? ==>
      && |r.agents| == |ops| && AgentsRotate(ops, numAgents, r.agents)
      && AssignsComponents(EditsOf(ops), numAgents, r.agents)
  {
    if numAgents < 1 {
      return NoAgents;
    }
    KnownExactly(ops, sharedModules);
    var edits := EditsOf(ops);
    var forest := new UnionFind(sharedModules);
    forall a, b | Together(forest.root, a, b) ensures Connected(edits, a, b) {
      ConnectedReflexive(edits, a);
    }
    for i := 0 to |edits|
      invariant forest.Valid() && Sound(edits, forest.root)
      invariant forall t :: t in forest.root <==> t in sharedModules
      invariant forall j :: 0 <= j < i ==> United(edits[j], forest.root, |edits[j]|)
    {
      ghost var before := forest.root;
      var known := UniteTables(edits, i, forest);
      if !known {
        return UnknownTable;
      }
      forall j | 0 <= j < i ensures United(edits[j], forest.root, |edits[j]|) {
        UnitedStays(edits[j], before, forest.root, |edits[j]|);
      }
    }
    ghost var root := forest.root;
    r := AssignOwners(edits, forest, numAgents);
    KnownFirstsKnowAll(edits, root, sharedModules);
    if r.Assigned? {
      ComponentsRotate(ops, numAgents, r.agents);
    }
  }

  lemma KnownFirstsKnowAll(edits: Edits, root: Parents, tables: seq<string>)
    requires forall t :: t in root <==> t in tables
    requires forall j :: 0 <= j < |edits| ==> United(edits[j], root, |edits[j]|)
    ensures AllKnown(edits, tables) <==> forall i :: 0 <= i < |edits| && edits[i] != [] ==> edits[i][0] in root
  {
    if forall i :: 0 <= i < |edits| && edits[i] != [] ==> edits[i][0] in root {
      forall i, t | 0 <= i < |edits| && t in edits[i] ensures t in tables {
        var k :| 0 <= k < |edits[i]| && edits[i][k] == t;
        assert United(edits[i], root, |edits[i]|);
        assert edits[i][0] in root;
        if k > 0 {
          assert Together(root, edits[i][0], edits[i][k]);
        }
      }
    }
  }

  // ------------------------------------------------------------ what the assignment guarantees

  /** No table is edited by two agents. */
  lemma NoTableHasTwoAgents(edits: Edits, numAgents: int, agents: seq<int>, i: nat, j: nat, t: string)
    requires |agents| == |edits| && AssignsComponents(edits, numAgents, agents)
    requires i < |edits| && j < |edits| && t in edits[i] && t in edits[j]
    ensures agents[i] == agents[j]
  {
    assert Linked(edits, edits[i][0], t) && Linked(edits, t, edits[j][0]);
    LinkedConnected(edits, edits[i][0], t);
    LinkedConnected(edits, t, edits[j][0]);
    ConnectedTransitive(edits, edits[i][0], t, edits[j][0]);
    ConnectedSymmetric(edits, edits[i][0], edits[j][0]);
    assert SameComponent(edits, i, j) && SameComponent(edits, j, i);
    assert AgentFits(edits, numAgents, agents, i) && AgentFits(edits, numAgents, agents, j);
  }

  /** The first operation of a component. */
  lemma {:induction false} Opener(edits: Edits, i: nat) returns (j: nat)
    requires i < |edits| && edits[i] != []
    ensures j <= i && Opens(edits, j) && SameComponent(edits, j, i)
    decreases i
  {
    if Opens(edits, i) {
      j := i;
      ConnectedReflexive(edits, edits[i][0]);
    } else {
      var k :| 0 <= k < i && SameComponent(edits, k, i);
      j := Opener(edits, k);
      ConnectedTransitive(edits, edits[j][0], edits[k][0], edits[i][0]);
    }
  }

  /** The specification leaves no choice: any two assignments that meet it are equal. */
  lemma AssignmentDetermined(edits: Edits, numAgents: int, a: seq<int>, b: seq<int>)
    requires |a| == |edits| && AssignsComponents(edits, numAgents, a)
    requires |b| == |edits| && AssignsComponents(edits, numAgents, b)
    ensures a == b
  {
    forall i | 0 <= i < |edits| ensures a[i] == b[i] {
      assert AgentFits(edits, numAgents, a, i) && AgentFits(edits, numAgents, b, i);
      if edits[i] != [] {
        var j := Opener(edits, i);
        assert AgentFits(edits, numAgents, a, j) && AgentFits(edits, numAgents, b, j);
      }
    }
  }

  /** How many components among the first `n` operations agent `x` owns. */
  ghost function Owned(edits: Edits, agents: seq<int>, x: int, n: nat): nat
    requires n <= |edits| && n <= |agents|
  {
    if n == 0 then 0
    else Owned(edits, agents, x, n - 1) + if Opens(edits, n - 1) && agents[n - 1] == x then 1 else 0
  }

  /** Agent `x`'s share of the first `m` places of the rotation. */
  function Share(m: nat, n: int, x: int): int
    requires n >= 1
  {
    m / n + if x < m % n then 1 else 0
  }

  lemma AtLeastOneTurn(n: int, k: int)
    requires n >= 1 && k >= 1
    ensures n * k >= n
  {
  }

  /** The quotient and remainder of the next number. */
  lemma NextDivMod(m: nat, n: int)
    requires n >= 1
    ensures if m % n + 1 == n then (m + 1) % n == 0 && (m + 1) / n == m / n + 1
            else (m + 1) % n == m % n + 1 && (m + 1) / n == m / n
  {
    var turn := (m + 1) / n - m / n;
    assert n * turn == 1 + m % n - (m + 1) % n;
    if turn >= 1 {
      AtLeastOneTurn(n, turn);
      if turn >= 2 {
        AtLeastOneTurn(n, turn - 1);
      }
    } else if turn <= -1 {
      AtLeastOneTurn(n, -turn);
    }
  }

  lemma NextShare(m: nat, n: int, x: int)
    requires n >= 1 && 0 <= x < n
    ensures Share(m + 1, n, x) == Share(m, n, x) + if m % n == x then 1 else 0
  {
    NextDivMod(m, n);
  }

  lemma {:induction false} OwnedCount(edits: Edits, numAgents: int, agents: seq<int>, x: int, n: nat)
    requires AssignsComponents(edits, numAgents, agents) && numAgents >= 1 && 0 <= x < numAgents
    requires n <= |agents|
    ensures Owned(edits, agents, x, n) == Share(Opened(edits, n), numAgents, x)
  {
    if n > 0 {
      OwnedCount(edits, numAgents, agents, x, n - 1);
      assert AgentFits(edits, numAgents, agents, n - 1);
      NextShare(Opened(edits, n - 1), numAgents, x);
    }
  }

  /** The numbers of components two agents own differ by at most one. */
  lemma ComponentsBalanced(edits: Edits, numAgents: int, agents: seq<int>, x: int, y: int)
    requires |agents| == |edits| && AssignsComponents(edits, numAgents, agents)
    requires 0 <= x < numAgents && 0 <= y < numAgents
    ensures -1 <= Owned(edits, agents, x, |edits|) - Owned(edits, agents, y, |edits|) <= 1
  {
    OwnedCount(edits, numAgents, agents, x, |edits|);
    OwnedCount(edits, numAgents, agents, y, |edits|);
  }
}
