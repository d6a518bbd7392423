/** Levenshtein distance by rolling rows, against the least number of single-character edits. */
module EditDistance {

  // ------------------------------------------------------------ edits

  datatype Edit = Insert(at: nat, c: char) | Delete(at: nat) | Substitute(at: nat, c: char)

  /** One insertion, deletion or substitution of a character turns `a` into `b`. */
  ghost predicate Step(a: string, b: string, e: Edit) {
    match e
    case Insert(at, c) => at <= |a| && b == a[..at] + [c] + a[at..]
    case Delete(at) => at < |a| && b == a[..at] + a[at + 1..]
    case Substitute(at, c) => at < |a| && b == a[at := c]
  }

  ghost predicate OneEdit(a: string, b: string) {
    exists e :: Step(a, b, e)
  }

  /** A sequence of strings, each one edit away from the one before. */
  ghost predicate EditPath(path: seq<string>, a: string, b: string) {
    && |path| > 0 && path[0] == a && path[|path| - 1] == b
    && forall i :: 0 <= i < |path| - 1 ==> OneEdit(path[i], path[i + 1])
  }

  // ------------------------------------------------------------ the recurrence

  function Min3(a: nat, b: nat, c: nat): nat {
    if a <= b && a <= c then a else if b <= c then b else c
  }

  /** The table entry for two prefixes. */
  function Distance(a: string, b: string): nat
    decreases |a| + |b|
  {
    if a == "" then |b|
    else if b == "" then |a|
    else
      var p, q := a[..|a| - 1], b[..|b| - 1];
      Min3(Distance(p, b) + 1, Distance(a, q) + 1,
           Distance(p, q) + if a[|a| - 1] != b[|b| - 1] then 1 else 0)
  }

  /** The entry for two nonempty strings, from its three neighbours. */
  lemma EntryFits(entry: nat, above: nat, left: nat, corner: nat, a: string, p: string, b: string, q: string)
    requires a != "" && p == a[..|a| - 1] && b != "" && q == b[..|b| - 1]
    requires entry == Distance(a, b) && above == Distance(p, b) && left == Distance(a, q) && corner == Distance(p, q)
    ensures entry == Min3(above + 1, left + 1, corner + if a[|a| - 1] != b[|b| - 1] then 1 else 0)
  {
  }

  ghost predicate IsRow(row: seq<nat>, a: string, i: nat, b: string, n: nat) {
    |row| == n && i <= |a| && n <= |b| + 1 && forall j :: 0 <= j < n ==> row[j] == Distance(a[..i], b[..j])
  }

  method NextRow(prev: seq<nat>, a: string, i: nat, b: string) returns (cur: seq<nat>)
    requires 1 <= i <= |a| && IsRow(prev, a, i - 1, b, |b| + 1)
    ensures IsRow(cur, a, i, b, |b| + 1)
  {
    cur := [i];
    for j := 1 to |b| + 1
      invariant IsRow(cur, a, i, b, j)
    {
      EntryFits(Distance(a[..i], b[..j]), prev[j], cur[j - 1], prev[j - 1], a[..i], a[..i - 1], b[..j], b[..j - 1]);
      cur := cur + [Min3(prev[j] + 1, cur[j - 1] + 1, prev[j - 1] + if a[i - 1] != b[j - 1] then 1 else 0)];
    }
  }

  method Levenshtein(a: string, b: string) returns (d: nat)
    ensures d == Distance(a, b)
  {
    var prev: seq<nat> := seq(|b| + 1, j requires 0 <= j => j);
    for i := 1 to |a| + 1
      invariant IsRow(prev, a, i - 1, b, |b| + 1)
    {
      prev := NextRow(prev, a, i, b);
    }
    assert a[..|a|] == a && b[..|b|] == b;
    d := prev[|prev| - 1];
  }

  // ------------------------------------------------------------ no path is shorter

  lemma {:induction false} DistanceToSelf(a: string)
    ensures Distance(a, a) == 0
  {
    if a != "" {
      DistanceToSelf(a[..|a| - 1]);
    }
  }

  /** Dropping the last character changes the distance by at most one. */
  lemma {:induction false} DropLast(a: string, b: string)
    requires a != ""
    ensures Distance(a[..|a| - 1], b) <= Distance(a, b) + 1
    ensures Distance(a, b) <= Distance(a[..|a| - 1], b) + 1
    decreases |b|
  {
    if b != "" {
      DropLast(a, b[..|b| - 1]);
    }
  }

  /** Replacing the last character changes the distance by at most one. */
  lemma {:induction false} ReplaceLast(p: string, x: char, y: char, b: string)
    ensures Distance(p + [x], b) <= Distance(p + [y], b) + 1
    decreases |b|
  {
    assert (p + [x])[..|p|] == p && (p + [y])[..|p|] == p;
    if b != "" {
      ReplaceLast(p, x, y, b[..|b| - 1]);
    }
  }

  /** An edit before the last character is an edit of the rest. */
  lemma EditBeforeLast(a: string, b: string, e: Edit)
    requires Step(a, b, e) && a != "" && b != ""
    requires e.Insert? ==> e.at < |a|
    requires !e.Insert? ==> e.at < |a| - 1
    ensures a[|a| - 1] == b[|b| - 1]
    ensures Step(a[..|a| - 1], b[..|b| - 1], e)
  {
    var p, q := a[..|a| - 1], b[..|b| - 1];
    match e
    case Insert(at, c) =>
      assert q == p[..at] + [c] + p[at..];
    case Delete(at) =>
      assert q == p[..at] + p[at + 1..];
    case Substitute(at, c) =>
      assert q == p[at := c];
  }

  /** If an edit happens before equal last characters, the bound passes to the longer strings. */
  lemma BoundBehindEdit(a: string, b: string, c: string)
    requires a != "" && b != "" && c != "" && a[|a| - 1] == b[|b| - 1]
    requires Distance(a[..|a| - 1], c) <= Distance(b[..|b| - 1], c) + 1
    requires Distance(a, c[..|c| - 1]) <= Distance(b, c[..|c| - 1]) + 1
    requires Distance(a[..|a| - 1], c[..|c| - 1]) <= Distance(b[..|b| - 1], c[..|c| - 1]) + 1
    ensures Distance(a, c) <= Distance(b, c) + 1
  {
  }

  /** An edit at the end of the string. */
  ghost predicate IsLastEdit(a: string, e: Edit) {
    e.at == if e.Insert? then |a| else |a| - 1
  }

  lemma LastEditBound(a: string, b: string, e: Edit, c: string)
    requires Step(a, b, e) && IsLastEdit(a, e)
    ensures Distance(a, c) <= Distance(b, c) + 1
  {
    match e
    case Insert(at, x) =>
      assert b == a + [x] && b[..|b| - 1] == a;
      DropLast(b, c);
    case Delete(at) =>
      assert b == a[..|a| - 1];
      DropLast(a, c);
    case Substitute(at, x) =>
      var p := a[..|a| - 1];
      assert a == p + [a[|a| - 1]] && b == p + [x];
      ReplaceLast(p, a[|a| - 1], x, c);
  }

  /** One edit brings a string at most one step closer to any other. */
  lemma {:induction false} EditBound(a: string, b: string, e: Edit, c: string)
    requires Step(a, b, e)
    ensures Distance(a, c) <= Distance(b, c) + 1
    decreases |a| + |b| + |c|
  {
    if IsLastEdit(a, e) {
      LastEditBound(a, b, e, c);
    } else {
      assert a != "" && b != "";
      EditBeforeLast(a, b, e);
      if c != "" {
        var p, p', q := a[..|a| - 1], b[..|b| - 1], c[..|c| - 1];
        EditBound(p, p', e, c);
        EditBound(a, b, e, q);
        EditBound(p, p', e, q);
        BoundBehindEdit(a, b, c);
      }
    }
  }

  /** Every way of turning `a` into `b` one edit at a time takes at least `Distance(a, b)` edits. */
  lemma {:induction false} NoShorterPath(path: seq<string>, a: string, b: string)
    requires EditPath(path, a, b)
    ensures |path| - 1 >= Distance(a, b)
    decreases |path|
  {
    if |path| == 1 {
      DistanceToSelf(a);
    } else {
      assert OneEdit(path[0], path[1]);
      var e :| Step(path[0], path[1], e);
      NoShorterPath(path[1..], path[1], b);
      EditBound(a, path[1], e, b);
    }
  }

  // ------------------------------------------------------------ some path is that short

  lemma PathConcat(p: seq<string>, q: seq<string>, a: string, b: string, c: string)
    requires EditPath(p, a, b) && EditPath(q, b, c)
    ensures EditPath(p + q[1..], a, c)
  {
    var r := p + q[1..];
    forall i | 0 <= i < |r| - 1 ensures OneEdit(r[i], r[i + 1]) {
      if i < |p| - 1 {
        assert r[i] == p[i] && r[i + 1] == p[i + 1];
      } else {
        assert r[i] == q[i - |p| + 1] && r[i + 1] == q[i - |p| + 2];
      }
    }
  }

  lemma Append(s: string, c: char)
    ensures OneEdit(s, s + [c]) && OneEdit(s + [c], s)
  {
    assert Step(s, s + [c], Insert(|s|, c));
    assert Step(s + [c], s, Delete(|s|));
  }

  /** The same edits work in front of one more character. */
  lemma ExtendPath(path: seq<string>, a: string, b: string, c: char) returns (longer: seq<string>)
    requires EditPath(path, a, b)
    ensures EditPath(longer, a + [c], b + [c]) && |longer| == |path|
  {
    longer := seq(|path|, i requires 0 <= i < |path| => path[i] + [c]);
    forall i | 0 <= i < |path| - 1 ensures OneEdit(longer[i], longer[i + 1]) {
      assert OneEdit(path[i], path[i + 1]);
      var e :| Step(path[i], path[i + 1], e);
      EditInFront(path[i], path[i + 1], e, c);
    }
  }

  lemma EditInFront(a: string, b: string, e: Edit, c: char)
    requires Step(a, b, e)
    ensures Step(a + [c], b + [c], e)
  {
    var s, t := a + [c], b + [c];
    match e
    case Insert(at, x) =>
      assert t == s[..at] + [x] + s[at..];
    case Delete(at) =>
      assert t == s[..at] + s[at + 1..];
    case Substitute(at, x) =>
      assert t == s[at := x];
  }

  /** A path to all but the last character of `b`, and one insertion. */
  lemma ThenInsert(path: seq<string>, a: string, b: string) returns (longer: seq<string>)
    requires b != "" && EditPath(path, a, b[..|b| - 1])
    ensures EditPath(longer, a, b) && |longer| == |path| + 1
  {
    var q := b[..|b| - 1];
    Append(q, b[|b| - 1]);
    assert q + [b[|b| - 1]] == b;
    assert EditPath([q, b], q, b);
    PathConcat(path, [q, b], a, q, b);
    longer := path + [q, b][1..];
  }

  /** One deletion, and a path from all but the last character of `a`. */
  lemma FirstDelete(path: seq<string>, a: string, b: string) returns (longer: seq<string>)
    requires a != "" && EditPath(path, a[..|a| - 1], b)
    ensures EditPath(longer, a, b) && |longer| == |path| + 1
  {
    var p := a[..|a| - 1];
    Append(p, a[|a| - 1]);
    assert p + [a[|a| - 1]] == a;
    assert EditPath([a, p], a, p);
    PathConcat([a, p], path, a, p, b);
    longer := [a, p] + path[1..];
  }

  /** An edit path of exactly `Distance(a, b)` edits. */
  lemma {:induction false} ShortestPath(a: string, b: string) returns (path: seq<string>)
    ensures EditPath(path, a, b) && |path| - 1 == Distance(a, b)
    decreases |a| + |b|
  {
    if a == "" && b == "" {
      path := [""];
    } else if a == "" || (b != "" && Distance(a, b) == Distance(a, b[..|b| - 1]) + 1) {
      var front := ShortestPath(a, b[..|b| - 1]);
      path := ThenInsert(front, a, b);
    } else if b == "" || Distance(a, b) == Distance(a[..|a| - 1], b) + 1 {
      var back := ShortestPath(a[..|a| - 1], b);
      path := FirstDelete(back, a, b);
    } else {
      path := DiagonalPath(a, b);
    }
  }

  lemma {:induction false} DiagonalPath(a: string, b: string) returns (path: seq<string>)
    requires a != "" && b != ""
    requires Distance(a, b) == Distance(a[..|a| - 1], b[..|b| - 1]) + if a[|a| - 1] != b[|b| - 1] then 1 else 0
    ensures EditPath(path, a, b) && |path| - 1 == Distance(a, b)
    decreases |a| + |b|, 0
  {
    var p, q, x, y := a[..|a| - 1], b[..|b| - 1], a[|a| - 1], b[|b| - 1];
    assert a == p + [x] && b == q + [y];
    var front := ShortestPath(p, q);
    path := ExtendPath(front, p, q, x);
    if x != y {
      var last := q + [x];
      assert Step(last, b, Substitute(|q|, y));
      assert EditPath([last, b], last, b);
      PathConcat(path, [last, b], a, last, b);
      path := path + [last, b][1..];
    }
  }

  // ------------------------------------------------------------ main results

  /** The distance is the least number of single-character edits from `a` to `b`. */
  lemma DistanceIsLeast(a: string, b: string)
    ensures exists path :: EditPath(path, a, b) && |path| - 1 == Distance(a, b)
    ensures forall path :: EditPath(path, a, b) ==> |path| - 1 >= Distance(a, b)
  {
    var path := ShortestPath(a, b);
    forall path | EditPath(path, a, b) ensures |path| - 1 >= Distance(a, b) {
      NoShorterPath(path, a, b);
    }
  }

  lemma StepReversed(a: string, b: string, e: Edit)
    requires Step(a, b, e)
    ensures OneEdit(b, a)
  {
    match e
    case Insert(at, c) =>
      assert a == b[..at] + b[at + 1..];
      assert Step(b, a, Delete(at));
    case Delete(at) =>
      assert a == b[..at] + [a[at]] + b[at..];
      assert Step(b, a, Insert(at, a[at]));
    case Substitute(at, c) =>
      assert a == b[at := a[at]];
      assert Step(b, a, Substitute(at, a[at]));
  }

  lemma PathReversed(path: seq<string>, a: string, b: string) returns (back: seq<string>)
    requires EditPath(path, a, b)
    ensures EditPath(back, b, a) && |back| == |path|
  {
    back := seq(|path|, i requires 0 <= i < |path| => path[|path| - 1 - i]);
    forall i | 0 <= i < |back| - 1 ensures OneEdit(back[i], back[i + 1]) {
      var k := |path| - 2 - i;
      assert OneEdit(path[k], path[k + 1]);
      var e :| Step(path[k], path[k + 1], e);
      StepReversed(path[k], path[k + 1], e);
    }
  }

  lemma {:induction false} Symmetric(a: string, b: string)
    ensures Distance(a, b) == Distance(b, a)
  {
    var there := ShortestPath(a, b);
    var back := PathReversed(there, a, b);
    NoShorterPath(back, b, a);
    var there' := ShortestPath(b, a);
    var back' := PathReversed(there', b, a);
    NoShorterPath(back', a, b);
  }

  lemma {:induction false} TriangleInequality(a: string, b: string, c: string)
    ensures Distance(a, c) <= Distance(a, b) + Distance(b, c)
  {
    var p := ShortestPath(a, b);
    var q := ShortestPath(b, c);
    PathConcat(p, q, a, b, c);
    NoShorterPath(p + q[1..], a, c);
  }

  /** Only equal strings are at distance zero. */
  lemma {:induction false} ZeroExactly(a: string, b: string)
    ensures Distance(a, b) == 0 <==> a == b
  {
    DistanceToSelf(a);
    var path := ShortestPath(a, b);
  }
}
