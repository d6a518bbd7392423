/** Stable sorting under a strict weak order, and the order on strings by code point. */
module Ordering {
  import opened Sequences

  ghost predicate StrictWeak<T(!new)>(less: (T, T) -> bool) {
    && (forall a :: !less(a, a))
    && (forall a, b, c :: less(a, b) && less(b, c) ==> less(a, c))
    && (forall a, b, c :: !less(a, b) && !less(b, c) ==> !less(a, c))
  }

  ghost predicate Sorted<T>(s: seq<T>, less: (T, T) -> bool) {
    forall i, j :: 0 <= i < j < |s| ==> !less(s[j], s[i])
  }

  /** Put `x` before the first element that is not less than it. */
  function Insert<T>(x: T, s: seq<T>, less: (T, T) -> bool): (r: seq<T>)
    ensures multiset(r) == multiset{x} + multiset(s)
    ensures |r| == |s| + 1
  {
    if s == [] then [x]
    else if less(s[0], x) then
      assert s == [s[0]] + s[1..];
      [s[0]] + Insert(x, s[1..], less)
    else [x] + s
  }

  /** `sorted(s)`: elements that compare equal keep their order. */
  function Sort<T>(s: seq<T>, less: (T, T) -> bool): (r: seq<T>)
    ensures multiset(r) == multiset(s)
    ensures |r| == |s|
  {
    if s == [] then []
    else
      assert s == [s[0]] + s[1..];
      Insert(s[0], Sort(s[1..], less), less)
  }

  lemma {:induction false} InsertSorted<T(!new)>(x: T, s: seq<T>, less: (T, T) -> bool)
    requires StrictWeak(less) && Sorted(s, less)
    ensures Sorted(Insert(x, s, less), less)
  {
    if s != [] {
      if less(s[0], x) {
        InsertSorted(x, s[1..], less);
        var r := Insert(x, s[1..], less);
        forall j | 0 <= j < |r| ensures !less(r[j], s[0]) {
          assert r[j] in multiset(r);
          if r[j] != x {
            assert r[j] in s[1..];
          }
        }
      } else {
        forall j | 0 <= j < |s| ensures !less(s[j], x) {
          assert j == 0 || !less(s[j], s[0]);
        }
      }
    }
  }

  lemma {:induction false} SortSorted<T(!new)>(s: seq<T>, less: (T, T) -> bool)
    requires StrictWeak(less)
    ensures Sorted(Sort(s, less), less)
  {
    if s != [] {
      SortSorted(s[1..], less);
      InsertSorted(s[0], Sort(s[1..], less), less);
    }
  }

  lemma FilterSwap<T(!new)>(x: T, head: T, rest: seq<T>, inserted: seq<T>, p: T -> bool)
    requires Filter(inserted, p) == Filter([x] + rest, p) && !(p(x) && p(head))
    ensures Filter([head] + inserted, p) == Filter([x] + ([head] + rest), p)
  {
    FilterConcat([head], inserted, p);
    FilterConcat([x], rest, p);
    FilterConcat([x], [head] + rest, p);
    FilterConcat([head], rest, p);
    FilterOne(x, p);
    FilterOne(head, p);
  }

  lemma {:induction false} InsertStable<T(!new)>(x: T, s: seq<T>, less: (T, T) -> bool, p: T -> bool)
    requires Alike(less, p)
    ensures Filter(Insert(x, s, less), p) == Filter([x] + s, p)
  {
    if s != [] && less(s[0], x) {
      InsertStable(x, s[1..], less, p);
      FilterSwap(x, s[0], s[1..], Insert(x, s[1..], less), p);
      assert [s[0]] + s[1..] == s;
    }
  }

  /** `p` holds of elements that compare equal. */
  ghost predicate Alike<T(!new)>(less: (T, T) -> bool, p: T -> bool) {
    forall a, b :: p(a) && p(b) ==> !less(a, b)
  }

  /** Elements that compare equal keep their order. */
  lemma {:induction false} SortStable<T(!new)>(s: seq<T>, less: (T, T) -> bool, p: T -> bool)
    requires Alike(less, p)
    ensures Filter(Sort(s, less), p) == Filter(s, p)
  {
    if s != [] {
      var tail := s[1..];
      SortStable(tail, less, p);
      InsertStable(s[0], Sort(tail, less), less, p);
      assert s == [s[0]] + tail;
      FilterConcat([s[0]], Sort(tail, less), p);
      FilterConcat([s[0]], tail, p);
    }
  }

  lemma SortedHead<T(!new)>(a: seq<T>, b: seq<T>, less: (T, T) -> bool)
    requires StrictWeak(less) && Sorted(a, less) && Sorted(b, less)
    requires multiset(a) == multiset(b) && a != [] && b != []
    ensures !less(b[0], a[0])
  {
    assert b[0] in multiset(a);
    var j :| 0 <= j < |a| && a[j] == b[0];
  }

  /** Under an order that tells all elements apart, there is only one sorted arrangement. */
  lemma {:induction false} SortedUnique<T(!new)>(a: seq<T>, b: seq<T>, less: (T, T) -> bool)
    requires StrictWeak(less) && Sorted(a, less) && Sorted(b, less)
    requires multiset(a) == multiset(b)
    requires forall x, y :: x in a && y in a && !less(x, y) && !less(y, x) ==> x == y
    ensures a == b
  {
    assert |multiset(a)| == |a| && |multiset(b)| == |b|;
    if a != [] {
      SortedHead(a, b, less);
      SortedHead(b, a, less);
      assert b[0] in multiset(a);
      assert a[0] == b[0];
      assert a == [a[0]] + a[1..] && b == [b[0]] + b[1..];
      assert multiset(a[1..]) == multiset(a) - multiset{a[0]};
      assert multiset(b[1..]) == multiset(b) - multiset{b[0]};
      SortedUnique(a[1..], b[1..], less);
    }
  }

  // ------------------------------------------------------------ strings

  predicate Less(a: string, b: string) {
    b != "" && (a == "" || a[0] < b[0] || (a[0] == b[0] && Less(a[1..], b[1..])))
  }

  /** At the first place where they differ, `a` has ended or has the smaller character. */
  ghost predicate SmallerAt(a: string, b: string, k: int) {
    0 <= k <= |a| && k < |b| && a[..k] == b[..k] && (k == |a| || a[k] < b[k])
  }

  lemma {:induction false} LessExactly(a: string, b: string)
    ensures Less(a, b) <==> exists k :: SmallerAt(a, b, k)
  {
    if a != "" && b != "" && a[0] == b[0] {
      LessExactly(a[1..], b[1..]);
      if k :| SmallerAt(a[1..], b[1..], k) {
        assert a[..k + 1] == [a[0]] + a[1..][..k] && b[..k + 1] == [b[0]] + b[1..][..k];
        assert SmallerAt(a, b, k + 1);
      }
      if k :| SmallerAt(a, b, k) {
        assert k > 0;
        assert a[1..][..k - 1] == a[..k][1..] && b[1..][..k - 1] == b[..k][1..];
        assert SmallerAt(a[1..], b[1..], k - 1);
      }
    } else {
      if Less(a, b) {
        assert SmallerAt(a, b, 0);
      }
      if k :| SmallerAt(a, b, k) {
        assert k > 0 ==> a[..k][0] == b[..k][0];
      }
    }
  }

  lemma {:induction false} LessTransitive(a: string, b: string, c: string)
    requires Less(a, b) && Less(b, c)
    ensures Less(a, c)
  {
    if a != "" && a[0] == b[0] && b[0] == c[0] {
      LessTransitive(a[1..], b[1..], c[1..]);
    }
  }

  lemma {:induction false} LessTotal(a: string, b: string)
    ensures Less(a, b) || Less(b, a) <==> a != b
    ensures !(Less(a, b) && Less(b, a))
  {
    if a != "" && b != "" {
      assert a == [a[0]] + a[1..] && b == [b[0]] + b[1..];
      LessTotal(a[1..], b[1..]);
    }
  }

  lemma LessIsStrictWeak()
    ensures StrictWeak(Less)
    ensures forall a, b :: !Less(a, b) && !Less(b, a) ==> a == b
  {
    forall a, b ensures !Less(a, b) && !Less(b, a) ==> a == b {
      LessTotal(a, b);
    }
    forall a ensures !Less(a, a) {
      LessTotal(a, a);
    }
    forall a, b, c ensures Less(a, b) && Less(b, c) ==> Less(a, c) {
      if Less(a, b) && Less(b, c) {
        LessTransitive(a, b, c);
      }
    }
    forall a, b, c ensures !Less(a, b) && !Less(b, c) ==> !Less(a, c) {
      if !Less(a, b) && !Less(b, c) && Less(a, c) {
        LessTotal(a, b);
        LessTotal(b, c);
        if a != b && b != c {
          LessTransitive(c, b, a);
        }
        LessTotal(a, c);
      }
    }
  }
}
