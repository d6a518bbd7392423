/** Dependency graphs: an id maps to the ids it depends on. An id outside the map is unknown
    to the plan and has no outgoing edges. */
module Graph {
  import opened Sequences

  type Graph = map<string, seq<string>>

  ghost predicate Edge(g: Graph, a: string, b: string) {
    a in g && b in g[a]
  }

  /** A walk follows edges; its last node may be an unknown id. */
  ghost predicate IsWalk(g: Graph, p: seq<string>) {
    |p| > 0 && forall i :: 0 <= i < |p| - 1 ==> Edge(g, p[i], p[i + 1])
  }

  ghost predicate WalkBetween(g: Graph, p: seq<string>, a: string, b: string) {
    IsWalk(g, p) && |p| >= 2 && p[0] == a && p[|p| - 1] == b
  }

  /** `b` is a direct or indirect dependency of `a`: at least one edge is followed. */
  ghost predicate Reaches(g: Graph, a: string, b: string) {
    exists p :: WalkBetween(g, p, a, b)
  }

  ghost predicate Acyclic(g: Graph) {
    forall a :: !Reaches(g, a, a)
  }

  ghost predicate Closed(g: Graph) {
    forall a, b :: Edge(g, a, b) ==> b in g
  }

  lemma EdgeReaches(g: Graph, a: string, b: string)
    requires Edge(g, a, b)
    ensures Reaches(g, a, b)
  {
    assert WalkBetween(g, [a, b], a, b);
  }

  lemma ReachesTransitive(g: Graph, a: string, b: string, c: string)
    requires Reaches(g, a, b) && Reaches(g, b, c)
    ensures Reaches(g, a, c)
  {
    var p :| WalkBetween(g, p, a, b);
    var q :| WalkBetween(g, q, b, c);
    var r := p + q[1..];
    forall i | 0 <= i < |r| - 1 ensures Edge(g, r[i], r[i + 1]) {
      if i < |p| - 1 {
        assert r[i] == p[i] && r[i + 1] == p[i + 1];
      } else {
        assert r[i] == q[i - |p| + 1] && r[i + 1] == q[i - |p| + 2];
      }
    }
    assert WalkBetween(g, r, a, c);
  }

  lemma StepThenReaches(g: Graph, a: string, b: string, c: string)
    requires Edge(g, a, b)
    requires b == c || Reaches(g, b, c)
    ensures Reaches(g, a, c)
  {
    EdgeReaches(g, a, b);
    if b != c {
      ReachesTransitive(g, a, b, c);
    }
  }

  /** Every node of a walk is reached from every earlier one. */
  lemma WalkReaches(g: Graph, p: seq<string>, i: nat, j: nat)
    requires IsWalk(g, p) && i < j < |p|
    ensures Reaches(g, p[i], p[j])
  {
    assert WalkBetween(g, p[i..j + 1], p[i], p[j]);
  }

  /** The first step of a nontrivial connection. */
  lemma FirstStep(g: Graph, a: string, b: string) returns (x: string)
    requires Reaches(g, a, b)
    ensures Edge(g, a, x) && (x == b || Reaches(g, x, b))
  {
    var p :| WalkBetween(g, p, a, b);
    x := p[1];
    if |p| > 2 {
      WalkReaches(g, p, 1, |p| - 1);
    }
  }

  /** In an acyclic graph every nonempty set of ids holds one that no other member depends on. */
  lemma {:induction false} SinkExists(g: Graph, ids: set<string>) returns (sink: string)
    requires Acyclic(g) && ids != {}
    ensures sink in ids
    ensures forall other :: other in ids && other != sink ==> !Reaches(g, other, sink)
    decreases |ids|
  {
    var x :| x in ids;
    if ids == {x} {
      return x;
    }
    sink := SinkExists(g, ids - {x});
    if Reaches(g, x, sink) {
      forall other | other in ids && other != x ensures !Reaches(g, other, x) {
        if Reaches(g, other, x) {
          ReachesTransitive(g, other, x, sink);
        }
      }
      return x;
    }
  }

  /** Edges of `h` are those of `g` plus edges from `t` to members of `extra`. */
  ghost predicate AddsEdges(g: Graph, h: Graph, t: string, extra: set<string>) {
    && (forall x, y :: x != t ==> (Edge(g, x, y) <==> Edge(h, x, y)))
    && (forall y :: Edge(h, t, y) ==> Edge(g, t, y) || y in extra)
  }

  /** Up to its first visit to `t`, a walk of `h` uses only edges of `g`. */
  lemma {:induction false} ReachesWithoutNewEdges(g: Graph, h: Graph, t: string, extra: set<string>, p: seq<string>)
    requires AddsEdges(g, h, t, extra)
    requires |p| >= 2 && WalkBetween(h, p, p[0], t) && p[0] != t
    ensures Reaches(g, p[0], t)
    decreases |p|
  {
    if p[1] == t {
      EdgeReaches(g, p[0], t);
    } else {
      assert WalkBetween(h, p[1..], p[1], t);
      ReachesWithoutNewEdges(g, h, t, extra, p[1..]);
      StepThenReaches(g, p[0], p[1], t);
    }
  }

  /** A task may take new dependencies on any ids that do not already depend on it. */
  lemma AddingEdgesKeepsAcyclic(g: Graph, h: Graph, t: string, extra: set<string>)
    requires Acyclic(g) && AddsEdges(g, h, t, extra)
    requires t !in extra
    requires forall r :: r in extra ==> !Reaches(g, r, t)
    ensures Acyclic(h)
  {
    forall a ensures !Reaches(h, a, a) {
      if Reaches(h, a, a) {
        var p :| WalkBetween(h, p, a, a);
        if k :| 0 <= k < |p| && p[k] == t {
          if 0 < k < |p| - 1 {
            WalkReaches(h, p, 0, k);
            WalkReaches(h, p, k, |p| - 1);
            ReachesTransitive(h, t, a, t);
          }
          assert Reaches(h, t, t);
          var x := FirstStep(h, t, t);
          if x == t {
            EdgeReaches(g, t, t);
          } else {
            var q :| WalkBetween(h, q, x, t);
            ReachesWithoutNewEdges(g, h, t, extra, q);
            StepThenReaches(g, t, x, t);
          }
        } else {
          forall i | 0 <= i < |p| - 1 ensures Edge(g, p[i], p[i + 1]) {
            assert Edge(h, p[i], p[i + 1]);
          }
          assert WalkBetween(g, p, a, a);
          assert Reaches(g, a, a);
        }
      }
    }
  }

  ghost predicate HasSuccessorIn(g: Graph, ids: set<string>, x: string) {
    exists y :: y in ids && Edge(g, x, y)
  }

  /** A finite set in which every id has a successor inside the set leads every member into
      a cycle. `p` is the duplicate-free walk found so far. */
  lemma {:induction false} ReachesCycle(g: Graph, ids: set<string>, p: seq<string>) returns (c: string)
    requires forall x :: x in ids ==> HasSuccessorIn(g, ids, x)
    requires IsWalk(g, p) && Distinct(p)
    requires forall x :: x in p ==> x in ids
    ensures c == p[0] || Reaches(g, p[0], c)
    ensures Reaches(g, c, c)
    decreases |ids| - |p|
  {
    var last := p[|p| - 1];
    assert HasSuccessorIn(g, ids, last);
    var y :| y in ids && Edge(g, last, y);
    if y in p {
      c := y;
      var i :| 0 <= i < |p| && p[i] == y;
      ClosesCycle(g, p, i);
    } else {
      var longer := p + [y];
      DistinctCard(longer, ids);
      c := ReachesCycle(g, ids, longer);
      assert longer[0] == p[0];
    }
  }

  /** A walk whose last node depends on an earlier one leads into a cycle there. */
  lemma ClosesCycle(g: Graph, p: seq<string>, i: nat)
    requires IsWalk(g, p) && i < |p| && Edge(g, p[|p| - 1], p[i])
    ensures i == 0 || Reaches(g, p[0], p[i])
    ensures Reaches(g, p[i], p[i])
  {
    if i > 0 {
      WalkReaches(g, p, 0, i);
    }
    var loop := p[i..] + [p[i]];
    assert WalkBetween(g, loop, p[i], p[i]);
  }
}
