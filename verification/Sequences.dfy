/** Facts about finite sequences that several components share. */
module Sequences {

  ghost predicate Distinct<T>(s: seq<T>) {
    forall i, j :: 0 <= i < j < |s| ==> s[i] != s[j]
  }

  /** `list(dict.fromkeys(s))`: the first occurrence of every element, in order. */
  function Dedup<T(!new,==)>(s: seq<T>): (d: seq<T>)
    ensures Distinct(d)
    ensures forall x :: x in d <==> x in s
  {
    if s == [] then []
    else
      var d := Dedup(s[..|s| - 1]);
      var last := s[|s| - 1];
      assert s == s[..|s| - 1] + [last];
      if last in d then d else d + [last]
  }

  /** `dict.fromkeys` leaves a duplicate-free list as it is. */
  lemma {:induction false} DedupDistinct<T(!new)>(s: seq<T>)
    requires Distinct(s)
    ensures Dedup(s) == s
  {
    if s != [] {
      DedupDistinct(s[..|s| - 1]);
    }
  }

  /** Appending elements that are already present changes nothing. */
  lemma {:induction false} DedupAbsorbs<T(!new)>(s: seq<T>, more: seq<T>)
    requires forall x :: x in more ==> x in s
    ensures Dedup(s + more) == Dedup(s)
  {
    if more == [] {
      assert s + more == s;
    } else {
      var whole := s + more;
      assert whole[..|whole| - 1] == s + more[..|more| - 1];
      assert whole[|whole| - 1] == more[|more| - 1];
      DedupAbsorbs(s, more[..|more| - 1]);
    }
  }

  /** Elements keep the place of their first occurrence: what a prefix holds comes first. */
  lemma {:induction false} DedupPrefix<T(!new)>(s: seq<T>, n: nat)
    requires n <= |s|
    ensures Dedup(s[..n]) <= Dedup(s)
  {
    if n < |s| {
      var m := |s| - 1;
      DedupPrefix(s[..m], n);
      assert s[..m][..n] == s[..n];
      DedupLast(s);
    } else {
      assert s[..n] == s;
    }
  }

  /** More elements, each once, are appended unless they are there. */
  lemma {:induction false} DedupAppends<T(!new)>(s: seq<T>, more: seq<T>, p: T -> bool)
    requires Distinct(more) && forall x :: p(x) <==> x !in s
    ensures Dedup(s + more) == Dedup(s) + Filter(more, p)
  {
    if more == [] {
      assert s + more == s;
      assert Dedup(s) + [] == Dedup(s);
    } else {
      var n := |more| - 1;
      var whole := s + more;
      assert whole[..|whole| - 1] == s + more[..n] && whole[|whole| - 1] == more[n];
      DedupAppends(s, more[..n], p);
      assert more == more[..n] + [more[n]];
      FilterOneMore(more[..n], more[n], p);
      assert more[n] !in more[..n];
      DedupLast(whole);
    }
  }

  /** A list comprehension with a condition. */
  function Filter<T(!new)>(s: seq<T>, p: T -> bool): (f: seq<T>)
    ensures forall x :: x in f <==> x in s && p(x)
    ensures |f| <= |s|
  {
    if s == [] then []
    else
      assert s == [s[0]] + s[1..];
      (if p(s[0]) then [s[0]] else []) + Filter(s[1..], p)
  }

  /** Splitting a list by a condition loses and invents nothing. */
  lemma {:induction false} FilterSplits<T(!new)>(s: seq<T>, p: T -> bool, q: T -> bool)
    requires forall x :: x in s ==> (q(x) <==> !p(x))
    ensures multiset(Filter(s, p)) + multiset(Filter(s, q)) == multiset(s)
    ensures |Filter(s, p)| + |Filter(s, q)| == |s|
  {
    if s != [] {
      assert s == [s[0]] + s[1..];
      FilterSplits(s[1..], p, q);
    }
  }

  lemma {:induction false} FilterConcat<T(!new)>(a: seq<T>, b: seq<T>, p: T -> bool)
    ensures Filter(a + b, p) == Filter(a, p) + Filter(b, p)
  {
    if a == [] {
      assert a + b == b;
    } else {
      assert (a + b)[1..] == a[1..] + b;
      FilterConcat(a[1..], b, p);
    }
  }

  lemma FilterOne<T(!new)>(x: T, p: T -> bool)
    ensures Filter([x], p) == if p(x) then [x] else []
  {
    assert [x][1..] == [];
  }

  lemma FilterOneMore<T(!new)>(s: seq<T>, x: T, p: T -> bool)
    ensures Filter(s + [x], p) == Filter(s, p) + if p(x) then [x] else []
  {
    FilterConcat(s, [x], p);
    FilterOne(x, p);
  }

  lemma {:induction false} FilterAgrees<T(!new)>(s: seq<T>, p: T -> bool, q: T -> bool)
    requires forall x :: x in s ==> (p(x) <==> q(x))
    ensures Filter(s, p) == Filter(s, q)
  {
    if s != [] {
      FilterAgrees(s[1..], p, q);
    }
  }

  lemma DistinctConcat<T>(a: seq<T>, b: seq<T>)
    requires Distinct(a) && Distinct(b)
    requires forall x :: x in b ==> x !in a
    ensures Distinct(a + b)
  {
    forall i, j | 0 <= i < j < |a + b| ensures (a + b)[i] != (a + b)[j] {
      if i < |a| <= j {
        assert (a + b)[j] == b[j - |a|] && b[j - |a|] in b;
      }
    }
  }

  lemma CountedTwice<T>(s: seq<T>, i: int, j: int)
    requires 0 <= i < j < |s| && s[i] == s[j]
    ensures multiset(s)[s[i]] >= 2
  {
    assert s == s[..i] + [s[i]] + s[i + 1..j] + [s[j]] + s[j + 1..];
  }

  lemma {:induction false} CountedOnce<T>(s: seq<T>, x: T)
    requires Distinct(s)
    ensures multiset(s)[x] <= 1
  {
    if s != [] {
      CountedOnce(s[1..], x);
      assert s == [s[0]] + s[1..];
    }
  }

  /** Rearranging a list without repetitions gives no repetition. */
  lemma DistinctOfPermutation<T>(s: seq<T>, t: seq<T>)
    requires multiset(s) == multiset(t) && Distinct(s)
    ensures Distinct(t)
  {
    forall i, j | 0 <= i < j < |t| ensures t[i] != t[j] {
      CountedOnce(s, t[i]);
      if t[i] == t[j] {
        CountedTwice(t, i, j);
      }
    }
  }

  /** A duplicate-free list has at most as many entries as any set that holds them. */
  lemma {:induction false} DistinctCard<T>(s: seq<T>, u: set<T>)
    requires Distinct(s)
    requires forall x :: x in s ==> x in u
    ensures |s| <= |u|
  {
    if s != [] {
      var last := s[|s| - 1];
      assert last in u;
      assert s[..|s| - 1] + [last] == s;
      forall x | x in s[..|s| - 1] ensures x in u - {last} {
        assert x in s;
      }
      DistinctCard(s[..|s| - 1], u - {last});
    }
  }

  function Flatten<T>(parts: seq<seq<T>>): (r: seq<T>) {
    if parts == [] then [] else parts[0] + Flatten(parts[1..])
  }

  lemma {:induction false} FlattenMember<T>(parts: seq<seq<T>>, x: T)
    ensures x in Flatten(parts) <==> exists k :: 0 <= k < |parts| && x in parts[k]
  {
    if parts != [] {
      FlattenMember(parts[1..], x);
      if exists k :: 0 <= k < |parts| && x in parts[k] {
        var k :| 0 <= k < |parts| && x in parts[k];
        if k > 0 {
          assert parts[1..][k - 1] == parts[k];
        }
      }
    }
  }

  lemma {:induction false} FlattenConcat<T>(a: seq<seq<T>>, b: seq<seq<T>>)
    ensures Flatten(a + b) == Flatten(a) + Flatten(b)
  {
    if a == [] {
      assert a + b == b;
    } else {
      assert (a + b)[1..] == a[1..] + b;
      FlattenConcat(a[1..], b);
    }
  }

  /** A list comprehension without a condition. */
  function Map<A, B>(f: A -> B, s: seq<A>): (r: seq<B>)
    ensures |r| == |s|
    ensures forall i :: 0 <= i < |s| ==> r[i] == f(s[i])
  {
    if s == [] then [] else [f(s[0])] + Map(f, s[1..])
  }

  lemma {:induction false} MapConcat<A, B>(f: A -> B, s: seq<A>, t: seq<A>)
    ensures Map(f, s + t) == Map(f, s) + Map(f, t)
  {
    if s == [] {
      assert s + t == t;
    } else {
      assert (s + t)[1..] == s[1..] + t;
      MapConcat(f, s[1..], t);
    }
  }

  lemma MapAppend<A, B>(f: A -> B, s: seq<A>, x: A)
    ensures Map(f, s + [x]) == Map(f, s) + [f(x)]
  {
    MapConcat(f, s, [x]);
  }

  /** Take out the first occurrence of an element. */
  lemma SplitAt<T>(s: seq<T>, x: T) returns (before: seq<T>, after: seq<T>)
    requires x in s
    ensures s == before + [x] + after
    ensures multiset(s) == multiset{x} + multiset(before + after)
  {
    var i :| 0 <= i < |s| && s[i] == x;
    before, after := s[..i], s[i + 1..];
    assert s == before + [x] + after;
  }

  /** Rearranging a list rearranges its image. */
  lemma {:induction false} MapOfPermutation<A, B>(f: A -> B, s: seq<A>, t: seq<A>)
    requires multiset(s) == multiset(t)
    ensures multiset(Map(f, s)) == multiset(Map(f, t))
    decreases |s|
  {
    assert |multiset(s)| == |s| && |multiset(t)| == |t|;
    if s != [] {
      assert s == [s[0]] + s[1..];
      assert s[0] in multiset(s);
      assert s[0] in t;
      var before, after := SplitAt(t, s[0]);
      assert multiset(s) == multiset{s[0]} + multiset(s[1..]);
      assert multiset(s[1..]) == multiset(s) - multiset{s[0]};
      assert multiset(before + after) == multiset(t) - multiset{s[0]};
      MapOfPermutation(f, s[1..], before + after);
      MapConcat(f, before + [s[0]], after);
      MapConcat(f, before, [s[0]]);
      MapConcat(f, before, after);
    }
  }

  lemma {:induction false} FilterOfPermutation<T(!new)>(s: seq<T>, t: seq<T>, p: T -> bool)
    requires multiset(s) == multiset(t)
    ensures multiset(Filter(s, p)) == multiset(Filter(t, p))
    decreases |s|
  {
    assert |multiset(s)| == |s| && |multiset(t)| == |t|;
    if s != [] {
      assert s == [s[0]] + s[1..];
      assert s[0] in multiset(s);
      assert s[0] in t;
      var before, after := SplitAt(t, s[0]);
      assert multiset(s) == multiset{s[0]} + multiset(s[1..]);
      assert multiset(s[1..]) == multiset(s) - multiset{s[0]};
      assert multiset(before + after) == multiset(t) - multiset{s[0]};
      FilterOfPermutation(s[1..], before + after, p);
      FilterConcat(before + [s[0]], after, p);
      FilterConcat(before, [s[0]], p);
      FilterConcat(before, after, p);
    }
  }

  /** A list comprehension over two loops. */
  function FlatMap<A, B>(f: A -> seq<B>, s: seq<A>): seq<B> {
    if s == [] then [] else FlatMap(f, s[..|s| - 1]) + f(s[|s| - 1])
  }

  lemma FlatMapOneMore<A, B>(f: A -> seq<B>, s: seq<A>, k: nat)
    requires k < |s|
    ensures FlatMap(f, s[..k + 1]) == FlatMap(f, s[..k]) + f(s[k])
  {
    assert s[..k + 1][..k] == s[..k];
  }

  lemma FlatMapOne<A, B>(f: A -> seq<B>, a: A)
    ensures FlatMap(f, [a]) == f(a)
  {
    assert FlatMap(f, [a][..0]) == [];
  }

  lemma {:induction false} FlatMapConcat<A, B>(f: A -> seq<B>, s: seq<A>, t: seq<A>)
    ensures FlatMap(f, s + t) == FlatMap(f, s) + FlatMap(f, t)
  {
    if t == [] {
      assert s + t == s;
    } else {
      var n := |t| - 1;
      assert (s + t)[..|s + t| - 1] == s + t[..n];
      FlatMapConcat(f, s, t[..n]);
    }
  }

  lemma {:induction false} FlatMapOfFlatMap<A, B, C>(g: B -> seq<C>, f: A -> seq<B>, h: A -> seq<C>, s: seq<A>)
    requires forall a :: a in s ==> FlatMap(g, f(a)) == h(a)
    ensures FlatMap(g, FlatMap(f, s)) == FlatMap(h, s)
  {
    if s != [] {
      var n := |s| - 1;
      FlatMapOfFlatMap(g, f, h, s[..n]);
      FlatMapConcat(g, FlatMap(f, s[..n]), f(s[n]));
    }
  }

  lemma {:induction false} FlatMapMember<A, B>(f: A -> seq<B>, s: seq<A>, x: B)
    ensures x in FlatMap(f, s) <==> exists a :: a in s && x in f(a)
  {
    if s != [] {
      var n := |s| - 1;
      FlatMapMember(f, s[..n], x);
      assert s == s[..n] + [s[n]];
    }
  }

  lemma {:induction false} FlatMapOfNothing<A, B>(f: A -> seq<B>, s: seq<A>)
    requires forall a :: a in s ==> f(a) == []
    ensures FlatMap(f, s) == []
  {
    if s != [] {
      FlatMapOfNothing(f, s[..|s| - 1]);
    }
  }

  lemma {:induction false} FlatMapOfOnes<A, B>(f: A -> seq<B>, g: A -> B, s: seq<A>)
    requires forall a :: a in s ==> f(a) == [g(a)]
    ensures FlatMap(f, s) == Map(g, s)
  {
    if s != [] {
      var n := |s| - 1;
      FlatMapOfOnes(f, g, s[..n]);
      MapOneMore(g, s, n);
      assert s[..n + 1] == s;
    }
  }

  lemma {:induction false} MapOfFlatMap<A, B, C>(g: B -> C, f: A -> seq<B>, h: A -> seq<C>, s: seq<A>)
    requires forall a :: a in s ==> Map(g, f(a)) == h(a)
    ensures Map(g, FlatMap(f, s)) == FlatMap(h, s)
  {
    if s != [] {
      var n := |s| - 1;
      MapOfFlatMap(g, f, h, s[..n]);
      MapConcat(g, FlatMap(f, s[..n]), f(s[n]));
    }
  }

  lemma {:induction false} FlatMapAgrees<A, B>(f: A -> seq<B>, g: A -> seq<B>, s: seq<A>)
    requires forall a :: a in s ==> f(a) == g(a)
    ensures FlatMap(f, s) == FlatMap(g, s)
  {
    if s != [] {
      FlatMapAgrees(f, g, s[..|s| - 1]);
    }
  }

  lemma {:induction false} FlatMapOfMap<A, B, C>(f: B -> seq<C>, g: A -> B, h: A -> seq<C>, s: seq<A>)
    requires forall a :: a in s ==> f(g(a)) == h(a)
    ensures FlatMap(f, Map(g, s)) == FlatMap(h, s)
  {
    if s != [] {
      var n := |s| - 1;
      MapLast(g, s);
      FlatMapOfMap(f, g, h, s[..n]);
    }
  }

  /** Lists that are longer piece by piece are longer, and of one length only piece by piece. */
  lemma {:induction false} FlatMapLonger<A, B>(f: A -> seq<B>, g: A -> seq<B>, s: seq<A>)
    requires forall a :: a in s ==> |f(a)| >= |g(a)|
    ensures |FlatMap(f, s)| >= |FlatMap(g, s)|
    ensures |FlatMap(f, s)| == |FlatMap(g, s)| ==> forall a :: a in s ==> |f(a)| == |g(a)|
  {
    if s != [] {
      var n := |s| - 1;
      FlatMapLonger(f, g, s[..n]);
      assert s == s[..n] + [s[n]];
    }
  }

  lemma Interleave<T>(a: seq<T>, b: seq<T>, c: seq<T>, d: seq<T>)
    requires b == [] || c == []
    ensures (a + b) + (c + d) == (a + c) + (b + d)
  {
  }

  /** A loop that emits a first and a second kind of pieces emits the first kind first, when none of
      it comes after the second. */
  lemma {:induction false} FlatMapSorted<A, B>(f: A -> seq<B>, g: A -> seq<B>, h: A -> seq<B>, s: seq<A>)
    requires forall k :: 0 <= k < |s| ==> f(s[k]) == g(s[k]) + h(s[k])
    requires forall i, k :: 0 <= i <= k < |s| ==> h(s[i]) == [] || g(s[k]) == []
    ensures FlatMap(f, s) == FlatMap(g, s) + FlatMap(h, s)
  {
    if s != [] {
      var n := |s| - 1;
      var before, after := FlatMap(g, s[..n]), FlatMap(h, s[..n]);
      FlatMapSorted(f, g, h, s[..n]);
      if g(s[n]) != [] {
        FlatMapOfNothing(h, s[..n]);
      }
      Interleave(before, after, g(s[n]), h(s[n]));
    }
  }

  /** Replacing elements by lists that look alike under a condition. */
  lemma {:induction false} FilterOfFlatMap<A(!new)>(f: A -> seq<A>, s: seq<A>, p: A -> bool)
    requires forall a :: a in s ==> Filter(f(a), p) == Filter([a], p)
    ensures Filter(FlatMap(f, s), p) == Filter(s, p)
  {
    if s != [] {
      var n := |s| - 1;
      FilterOfFlatMap(f, s[..n], p);
      FilterConcat(FlatMap(f, s[..n]), f(s[n]), p);
      assert s == s[..n] + [s[n]];
      FilterConcat(s[..n], [s[n]], p);
    }
  }

  lemma {:induction false} FilterOfNone<T(!new)>(s: seq<T>, p: T -> bool)
    requires forall x :: x in s ==> !p(x)
    ensures Filter(s, p) == []
  {
    if s != [] {
      FilterOfNone(s[1..], p);
    }
  }

  /** The elements of `s` are elements of `t`, in the same order. */
  ghost predicate Subsequence<T>(s: seq<T>, t: seq<T>) {
    s == [] || (t != [] &&
      ((s[|s| - 1] == t[|t| - 1] && Subsequence(s[..|s| - 1], t[..|t| - 1])) || Subsequence(s, t[..|t| - 1])))
  }

  lemma {:induction false} SubsequenceConcat<T>(a: seq<T>, b: seq<T>, c: seq<T>, d: seq<T>)
    requires Subsequence(a, b) && Subsequence(c, d)
    ensures Subsequence(a + c, b + d)
    decreases |d|
  {
    if d == [] {
      assert a + c == a && b + d == b;
    } else {
      assert (b + d)[..|b + d| - 1] == b + d[..|d| - 1];
      if c == [] {
        SubsequenceConcat(a, b, c, d[..|d| - 1]);
      } else if Subsequence(c, d[..|d| - 1]) {
        SubsequenceConcat(a, b, c, d[..|d| - 1]);
      } else {
        SubsequenceConcat(a, b, c[..|c| - 1], d[..|d| - 1]);
        assert (a + c)[..|a + c| - 1] == a + c[..|c| - 1];
      }
    }
  }

  lemma {:induction false} SubsequencePrefix<T>(s: seq<T>, t: seq<T>, k: nat)
    requires Subsequence(s, t) && k <= |s|
    ensures Subsequence(s[..k], t)
    decreases |t|
  {
    if k < |s| && s != [] {
      if Subsequence(s, t[..|t| - 1]) {
        SubsequencePrefix(s, t[..|t| - 1], k);
      } else {
        SubsequencePrefix(s[..|s| - 1], t[..|t| - 1], k);
        assert s[..|s| - 1][..k] == s[..k];
      }
    } else {
      assert s[..k] == s;
    }
  }

  lemma {:induction false} SubsequenceOfFlatMap<A, B>(f: A -> seq<B>, g: A -> seq<B>, s: seq<A>)
    requires forall a :: a in s ==> Subsequence(f(a), g(a))
    ensures Subsequence(FlatMap(f, s), FlatMap(g, s))
  {
    if s != [] {
      var n := |s| - 1;
      SubsequenceOfFlatMap(f, g, s[..n]);
      SubsequenceConcat(FlatMap(f, s[..n]), FlatMap(g, s[..n]), f(s[n]), g(s[n]));
    }
  }

  lemma MapOfOptional<A, B>(f: A -> B, s: seq<A>, x: A, there: bool)
    ensures Map(f, s + if there then [x] else []) == Map(f, s) + if there then [f(x)] else []
  {
    if there {
      MapAppend(f, s, x);
    } else {
      assert s + [] == s;
    }
  }

  /** Skipping some elements and mapping the others is one loop. */
  lemma {:induction false} MapOfFilter<A(!new), B>(f: A -> B, h: A -> seq<B>, s: seq<A>, p: A -> bool)
    requires forall a :: a in s ==> h(a) == if p(a) then [f(a)] else []
    ensures Map(f, Filter(s, p)) == FlatMap(h, s)
  {
    if s != [] {
      var n := |s| - 1;
      MapOfFilter(f, h, s[..n], p);
      assert s == s[..n] + [s[n]];
      FilterOneMore(s[..n], s[n], p);
      MapOfOptional(f, Filter(s[..n], p), s[n], p(s[n]));
    }
  }

  lemma {:induction false} FilterOfAll<T(!new)>(s: seq<T>, p: T -> bool)
    requires forall x :: x in s ==> p(x)
    ensures Filter(s, p) == s
  {
    if s != [] {
      FilterOfAll(s[1..], p);
    }
  }

  // ------------------------------------------------------------ folds

  /** A loop that updates a value with one item after another. */
  function Fold<A, B>(step: (A, B) -> A, start: A, items: seq<B>): A {
    if items == [] then start
    else step(Fold(step, start, items[..|items| - 1]), items[|items| - 1])
  }

  lemma FoldOneMore<A, B>(step: (A, B) -> A, start: A, items: seq<B>, k: nat)
    requires k < |items|
    ensures Fold(step, start, items[..k + 1]) == step(Fold(step, start, items[..k]), items[k])
  {
    assert items[..k + 1][..k] == items[..k];
  }

  lemma {:induction false} FoldConcat<A, B>(step: (A, B) -> A, start: A, a: seq<B>, b: seq<B>)
    ensures Fold(step, start, a + b) == Fold(step, Fold(step, start, a), b)
  {
    if b == [] {
      assert a + b == a;
    } else {
      var n := |b| - 1;
      assert (a + b)[..|a + b| - 1] == a + b[..n];
      FoldConcat(step, start, a, b[..n]);
    }
  }

  /** Skipping items is folding over the others. */
  lemma {:induction false} FoldFilter<A, B(!new)>(step: (A, B) -> A, guarded: (A, B) -> A, start: A, items: seq<B>, p: B -> bool)
    requires forall a, b :: guarded(a, b) == if p(b) then step(a, b) else a
    ensures Fold(guarded, start, items) == Fold(step, start, Filter(items, p))
  {
    if items != [] {
      var n := |items| - 1;
      FoldFilter(step, guarded, start, items[..n], p);
      assert items == items[..n] + [items[n]];
      FilterConcat(items[..n], [items[n]], p);
      FoldConcat(step, start, Filter(items[..n], p), Filter([items[n]], p));
    }
  }

  /** Nested loops are one loop. */
  lemma {:induction false} FoldFlatten<A, B>(step: (A, B) -> A, all: (A, seq<B>) -> A, start: A, parts: seq<seq<B>>)
    requires forall a, b :: all(a, b) == Fold(step, a, b)
    ensures Fold(all, start, parts) == Fold(step, start, Flatten(parts))
  {
    if parts != [] {
      var n := |parts| - 1;
      FoldFlatten(step, all, start, parts[..n]);
      assert parts == parts[..n] + [parts[n]];
      FlattenConcat(parts[..n], [parts[n]]);
      assert Flatten([parts[n]]) == parts[n];
      FoldConcat(step, start, Flatten(parts[..n]), parts[n]);
    }
  }

  /** A step that appends the item's key to the view unless it is there. */
  ghost predicate AppendsNew<A, B, K>(step: (A, B) -> A, view: A -> seq<K>, key: B -> K, ok: A -> bool, a: A, b: B) {
    && ok(step(a, b))
    && view(step(a, b)) == if key(b) in view(a) then view(a) else view(a) + [key(b)]
  }

  lemma {:induction false} FoldAppendsNew<A(!new), B, K(!new)>(
      step: (A, B) -> A, view: A -> seq<K>, key: B -> K, ok: A -> bool, start: A, items: seq<B>)
    requires ok(start) && view(start) == []
    requires forall a, b {:trigger AppendsNew(step, view, key, ok, a, b)} :: b in items && ok(a) ==>
      AppendsNew(step, view, key, ok, a, b)
    ensures ok(Fold(step, start, items))
    ensures view(Fold(step, start, items)) == Dedup(Map(key, items))
  {
    if items != [] {
      var n := |items| - 1;
      FoldAppendsNew(step, view, key, ok, start, items[..n]);
      var sofar := Fold(step, start, items[..n]);
      assert AppendsNew(step, view, key, ok, sofar, items[n]);
      MapLast(key, items);
      DedupLast(Map(key, items));
    }
  }

  lemma DedupLast<T(!new)>(s: seq<T>)
    requires s != []
    ensures
      var d, last := Dedup(s[..|s| - 1]), s[|s| - 1];
      Dedup(s) == if last in d then d else d + [last]
  {
  }

  lemma MapOneMore<A, B>(f: A -> B, s: seq<A>, k: nat)
    requires k < |s|
    ensures Map(f, s[..k + 1]) == Map(f, s[..k]) + [f(s[k])]
  {
  }

  lemma MapLast<A, B>(f: A -> B, s: seq<A>)
    requires s != []
    ensures Map(f, s) != []
    ensures Map(f, s)[..|Map(f, s)| - 1] == Map(f, s[..|s| - 1])
    ensures Map(f, s)[|Map(f, s)| - 1] == f(s[|s| - 1])
  {
  }
}
