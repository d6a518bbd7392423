/** Listing a tenant's jobs page by page behind an exclusive cursor. */
module JobPaging {
  import opened Sequences
  import opened Ordering
  import opened JobLifecycle
  import opened Options

  predicate IdLess(a: Job, b: Job) {
    Less(a.id, b.id)
  }

  function Take<T>(s: seq<T>, n: nat): seq<T> {
    if n < |s| then s[..n] else s
  }

  function Visible(tenant: string, after: string): Job -> bool {
    (j: Job) => tenant != "" && j.tenant == tenant && Less(after, j.id)
  }

  /** The tenant's jobs with ids above the cursor, in id order. */
  function Listing(jobs: seq<Job>, tenant: string, after: string): seq<Job> {
    Sort(Filter(jobs, Visible(tenant, after)), IdLess)
  }

  function PageJobs(jobs: seq<Job>, tenant: string, after: string, limit: int): Option<seq<Job>> {
    if !(1 <= limit <= 100) then None
    else Some(Take(Listing(jobs, tenant, after), limit))
  }

  /** Page sizes a client may ask for, one request after another. */
  ghost predicate ValidLimits(limits: nat -> int) {
    forall k :: 1 <= limits(k) <= 100
  }

  /** What a client sees of the service: a page for a cursor and a size. */
  type Pager = (string, int) -> Option<seq<Job>>

  function PagerOf(jobs: seq<Job>, tenant: string): Pager {
    (after: string, limit: int) => PageJobs(jobs, tenant, after, limit)
  }

  /** Request page after page behind the last id seen, until a page is empty. `requests` is how
      many nonempty pages the client is prepared to fetch. */
  function Walk(pager: Pager, after: string, limits: nat -> int, k: nat, requests: nat): Option<seq<Job>>
    decreases requests
  {
    var page := pager(after, limits(k));
    if page.None? then None
    else if page.value == [] then Some([])
    else if requests == 0 then None
    else
      var last := page.value[|page.value| - 1].id;
      var rest := Walk(pager, last, limits, k + 1, requests - 1);
      if rest.None? then None else Some(page.value + rest.value)
  }

  // ------------------------------------------------------------ jobs in id order

  ghost predicate DistinctJobIds(jobs: seq<Job>) {
    forall i, j :: 0 <= i < j < |jobs| ==> jobs[i].id != jobs[j].id
  }

  ghost predicate Ascending(jobs: seq<Job>) {
    forall i, j :: 0 <= i < j < |jobs| ==> Less(jobs[i].id, jobs[j].id)
  }

  lemma IdOrder()
    ensures StrictWeak(IdLess)
    ensures forall a, b :: !Less(a, b) && !Less(b, a) ==> a == b
    ensures forall a, b :: Less(a, b) ==> !Less(b, a)
    ensures forall a, b, c :: Less(a, b) && Less(b, c) ==> Less(a, c)
  {
    LessIsStrictWeak();
  }

  lemma {:induction false} FilterKeepsDistinct(jobs: seq<Job>, p: Job -> bool)
    requires DistinctJobIds(jobs)
    ensures DistinctJobIds(Filter(jobs, p))
  {
    if jobs != [] {
      FilterKeepsDistinct(jobs[1..], p);
      var rest := Filter(jobs[1..], p);
      forall j | 0 <= j < |rest| ensures rest[j].id != jobs[0].id {
        assert rest[j] in rest;
        var i :| 0 <= i < |jobs[1..]| && jobs[1..][i] == rest[j];
      }
    }
  }

  lemma SortMembers(s: seq<Job>, x: Job)
    ensures x in Sort(s, IdLess) <==> x in s
  {
    assert x in multiset(Sort(s, IdLess)) <==> x in multiset(s);
  }

  lemma {:induction false} InsertKeepsDistinct(x: Job, s: seq<Job>)
    requires DistinctJobIds(s) && forall j :: 0 <= j < |s| ==> s[j].id != x.id
    ensures DistinctJobIds(Insert(x, s, IdLess))
  {
    if s != [] && IdLess(s[0], x) {
      InsertKeepsDistinct(x, s[1..]);
      var r := Insert(x, s[1..], IdLess);
      forall j | 0 <= j < |r| ensures r[j].id != s[0].id {
        assert r[j] in multiset(r);
        if r[j] != x {
          var i :| 0 <= i < |s[1..]| && s[1..][i] == r[j];
        }
      }
    }
  }

  lemma {:induction false} SortKeepsDistinct(s: seq<Job>)
    requires DistinctJobIds(s)
    ensures DistinctJobIds(Sort(s, IdLess))
  {
    if s != [] {
      SortKeepsDistinct(s[1..]);
      var rest := Sort(s[1..], IdLess);
      forall j | 0 <= j < |rest| ensures rest[j].id != s[0].id {
        SortMembers(s[1..], rest[j]);
        var i :| 0 <= i < |s[1..]| && s[1..][i] == rest[j];
      }
      InsertKeepsDistinct(s[0], rest);
    }
  }

  /** Two ascending lists of the same jobs are the same list. */
  lemma {:induction false} AscendingUnique(a: seq<Job>, b: seq<Job>)
    requires Ascending(a) && Ascending(b)
    requires forall x :: x in a <==> x in b
    ensures a == b
  {
    IdOrder();
    assert |b| > 0 ==> b[0] in b;
    assert |a| > 0 ==> a[0] in a;
    if a != [] {
      assert a[0] in b && b[0] in a;
      assert a[0] == b[0];
      forall x ensures x in a[1..] <==> x in b[1..] {
        TailMembers(a, x);
        TailMembers(b, x);
      }
      AscendingUnique(a[1..], b[1..]);
    }
  }

  lemma TailMembers(a: seq<Job>, x: Job)
    requires Ascending(a) && a != []
    ensures x in a[1..] <==> x in a && x != a[0]
  {
    IdOrder();
    assert a == [a[0]] + a[1..];
  }

  // ------------------------------------------------------------ pages of a tenant

  predicate OfTenant(tenant: string, j: Job) {
    j.tenant == tenant
  }

  function TenantJobs(jobs: seq<Job>, tenant: string): seq<Job> {
    Filter(jobs, (j: Job) => OfTenant(tenant, j))
  }

  lemma ListingMembers(jobs: seq<Job>, tenant: string, after: string, x: Job)
    ensures x in Listing(jobs, tenant, after) <==>
      tenant != "" && x in TenantJobs(jobs, tenant) && Less(after, x.id)
  {
    SortMembers(Filter(jobs, Visible(tenant, after)), x);
  }

  lemma {:induction false} VisibleAmongMine(jobs: seq<Job>, tenant: string, after: string)
    ensures Filter(TenantJobs(jobs, tenant), Visible(tenant, after)) == Filter(jobs, Visible(tenant, after))
  {
    if jobs != [] {
      VisibleAmongMine(jobs[1..], tenant, after);
      var head := if OfTenant(tenant, jobs[0]) then [jobs[0]] else [];
      FilterConcat(head, TenantJobs(jobs[1..], tenant), Visible(tenant, after));
    }
  }

  lemma ListingAscends(jobs: seq<Job>, tenant: string, after: string)
    requires DistinctJobIds(TenantJobs(jobs, tenant))
    ensures Ascending(Listing(jobs, tenant, after))
  {
    IdOrder();
    var visible := Filter(jobs, Visible(tenant, after));
    VisibleAmongMine(jobs, tenant, after);
    FilterKeepsDistinct(TenantJobs(jobs, tenant), Visible(tenant, after));
    SortKeepsDistinct(visible);
    SortSorted(visible, IdLess);
  }

  /** Behind the n-th job of a listing lies exactly the rest of it. */
  lemma NextListing(jobs: seq<Job>, tenant: string, after: string, n: nat)
    requires DistinctJobIds(TenantJobs(jobs, tenant))
    requires 0 < n <= |Listing(jobs, tenant, after)|
    ensures
      var l := Listing(jobs, tenant, after);
      Listing(jobs, tenant, l[n - 1].id) == l[n..]
  {
    var l := Listing(jobs, tenant, after);
    var last := l[n - 1].id;
    ListingAscends(jobs, tenant, after);
    ListingAscends(jobs, tenant, last);
    forall x ensures x in Listing(jobs, tenant, last) <==> x in l[n..] {
      ListingMembers(jobs, tenant, after, x);
      ListingMembers(jobs, tenant, last, x);
      RestMembers(l, n, x);
      ListingMembers(jobs, tenant, after, l[n - 1]);
      IdOrder();
    }
    AscendingUnique(Listing(jobs, tenant, last), l[n..]);
  }

  lemma RestMembers(l: seq<Job>, n: nat, x: Job)
    requires Ascending(l) && 0 < n <= |l|
    ensures x in l[n..] <==> x in l && Less(l[n - 1].id, x.id)
  {
    IdOrder();
    if x in l && Less(l[n - 1].id, x.id) {
      var i :| 0 <= i < |l| && l[i] == x;
      assert i >= n;
      assert l[n..][i - n] == x;
    }
  }

  /** A page is a nonempty start of the listing, if there is one, and behind its last id lies the
      rest of the listing. */
  ghost predicate PageFits(pager: Pager, listing: string -> seq<Job>, after: string, limit: int) {
    var l := listing(after);
    pager(after, limit).Some? &&
    var n := |pager(after, limit).value|;
    && n <= |l| && pager(after, limit).value == l[..n]
    && (l != [] ==> n > 0 && listing(l[n - 1].id) == l[n..])
  }

  function ListingOf(jobs: seq<Job>, tenant: string): string -> seq<Job> {
    (after: string) => Listing(jobs, tenant, after)
  }

  lemma FirstPage(jobs: seq<Job>, tenant: string, after: string, limit: int, l: seq<Job>) returns (n: nat)
    requires DistinctJobIds(TenantJobs(jobs, tenant)) && 1 <= limit <= 100
    requires l == Listing(jobs, tenant, after)
    ensures n <= |l| && PageJobs(jobs, tenant, after, limit) == Some(l[..n])
    ensures l != [] ==> n > 0 && Listing(jobs, tenant, l[n - 1].id) == l[n..]
  {
    n := if limit < |l| then limit else |l|;
    assert Take(l, limit) == l[..n];
    if l != [] {
      NextListing(jobs, tenant, after, n);
    }
  }

  lemma PagesFit(jobs: seq<Job>, tenant: string, after: string, limit: int)
    requires DistinctJobIds(TenantJobs(jobs, tenant)) && 1 <= limit <= 100
    ensures PageFits(PagerOf(jobs, tenant), ListingOf(jobs, tenant), after, limit)
  {
    var l := ListingOf(jobs, tenant)(after);
    var n := FirstPage(jobs, tenant, after, limit, l);
    assert PagerOf(jobs, tenant)(after, limit) == Some(l[..n]);
  }

  ghost predicate PagesAllFit(pager: Pager, listing: string -> seq<Job>) {
    forall after, limit :: 1 <= limit <= 100 ==> PageFits(pager, listing, after, limit)
  }

  /** Page after page, the client sees the whole listing, whatever page sizes it asks for. */
  lemma {:induction false} WalkSeesListing(pager: Pager, listing: string -> seq<Job>, after: string, limits: nat -> int, k: nat, requests: nat)
    requires PagesAllFit(pager, listing) && ValidLimits(limits)
    requires requests >= |listing(after)|
    ensures Walk(pager, after, limits, k, requests) == Some(listing(after))
    decreases requests
  {
    var l := listing(after);
    assert PageFits(pager, listing, after, limits(k));
    if l != [] {
      var page := pager(after, limits(k)).value;
      var n := |page|;
      assert page[n - 1] == l[n - 1];
      WalkSeesListing(pager, listing, l[n - 1].id, limits, k + 1, requests - 1);
      assert page + l[n..] == l;
    }
  }

  lemma AllPagesFit(jobs: seq<Job>, tenant: string)
    requires DistinctJobIds(TenantJobs(jobs, tenant))
    ensures PagesAllFit(PagerOf(jobs, tenant), ListingOf(jobs, tenant))
  {
    forall after, limit | 1 <= limit <= 100
      ensures PageFits(PagerOf(jobs, tenant), ListingOf(jobs, tenant), after, limit)
    {
      PagesFit(jobs, tenant, after, limit);
    }
  }

  /** The walk ends and sees the tenant's whole listing. */
  lemma WalkOfJobs(jobs: seq<Job>, tenant: string, limits: nat -> int)
    requires ValidLimits(limits) && DistinctJobIds(TenantJobs(jobs, tenant))
    ensures Walk(PagerOf(jobs, tenant), "", limits, 0, |jobs|) == Some(Listing(jobs, tenant, ""))
  {
    AllPagesFit(jobs, tenant);
    var l := ListingOf(jobs, tenant)("");
    assert |l| <= |jobs|;
    WalkSeesListing(PagerOf(jobs, tenant), ListingOf(jobs, tenant), "", limits, 0, |jobs|);
  }

  // ------------------------------------------------------------ what one page holds

  /** A job a client may be shown: the tenant's, with an id above the cursor. */
  function AskedFor(tenant: string, after: string): Job -> bool {
    (j: Job) => tenant != "" && j.tenant == tenant && Less(after, j.id)
  }

  function WithId(id: string): Job -> bool {
    (j: Job) => j.id == id
  }

  /** `page` and then `rest` are the jobs asked for, in the order of their ids, and jobs with one id
      in the order in which they are stored. */
  ghost predicate StartsWith(wanted: seq<Job>, page: seq<Job>, rest: seq<Job>) {
    && multiset(page) + multiset(rest) == multiset(wanted)
    && (forall i, j :: 0 <= i < j < |page| ==> !Less(page[j].id, page[i].id))
    && (forall x, y :: x in page && y in rest ==> !Less(y.id, x.id))
    && forall id :: Filter(page + rest, WithId(id)) == Filter(wanted, WithId(id))
  }

  lemma SplitListing(wanted: seq<Job>, l: seq<Job>, n: nat)
    requires l == Sort(wanted, IdLess) && n <= |l|
    ensures StartsWith(wanted, l[..n], l[n..])
  {
    IdOrder();
    SortSorted(wanted, IdLess);
    assert l == l[..n] + l[n..];
    forall id ensures Filter(l, WithId(id)) == Filter(wanted, WithId(id)) {
      SortStable(wanted, IdLess, WithId(id));
    }
    forall x, y | x in l[..n] && y in l[n..] ensures !Less(y.id, x.id) {
      var i :| 0 <= i < n && l[i] == x;
      var j :| 0 <= j < |l[n..]| && l[n..][j] == y;
      assert !IdLess(l[n + j], l[i]);
    }
    forall i, j | 0 <= i < j < n ensures !Less(l[j].id, l[i].id) {
      assert !IdLess(l[j], l[i]);
    }
  }

  /** As many of the jobs asked for as fit, and those with the smallest ids. */
  ghost predicate IsPage(wanted: seq<Job>, page: seq<Job>, limit: int) {
    && (|page| == if limit < |wanted| then limit else |wanted|)
    && exists rest :: StartsWith(wanted, page, rest)
  }

  lemma TakenPage(wanted: seq<Job>, limit: nat)
    ensures IsPage(wanted, Take(Sort(wanted, IdLess), limit), limit)
  {
    var l := Sort(wanted, IdLess);
    var n := if limit < |l| then limit else |l|;
    SplitListing(wanted, l, n);
    assert l[..|l|] == l;
    assert Take(l, limit) == l[..n];
  }

  /** A page is refused exactly when its size is outside 1 to 100; otherwise it holds as many of the
      jobs asked for as fit, and they are those with the smallest ids, in order. */
  lemma PageExactly(jobs: seq<Job>, tenant: string, after: string, limit: int)
    ensures PageJobs(jobs, tenant, after, limit) == None <==> limit < 1 || limit > 100
    ensures PageJobs(jobs, tenant, after, limit).Some? ==>
      IsPage(Filter(jobs, AskedFor(tenant, after)), PageJobs(jobs, tenant, after, limit).value, limit)
  {
    if 1 <= limit <= 100 {
      FilterAgrees(jobs, Visible(tenant, after), AskedFor(tenant, after));
      TakenPage(Filter(jobs, AskedFor(tenant, after)), limit);
    }
  }

  // ------------------------------------------------------------ exactly when paging is complete

  /** Following the cursor from the start visits every job of the tenant exactly once, whatever
      page sizes are asked for. */
  ghost predicate PagingComplete(jobs: seq<Job>, tenant: string) {
    forall limits: nat -> int :: ValidLimits(limits) ==> VisitsAllOnce(jobs, tenant, limits)
  }

  ghost predicate VisitsAllOnce(jobs: seq<Job>, tenant: string, limits: nat -> int) {
    var seen := Walk(PagerOf(jobs, tenant), "", limits, 0, |jobs|);
    seen.Some? && multiset(seen.value) == multiset(TenantJobs(jobs, tenant))
  }

  ghost predicate NonemptyIds(jobs: seq<Job>) {
    forall x :: x in jobs ==> x.id != ""
  }

  lemma {:induction false} AllVisible(jobs: seq<Job>, tenant: string)
    requires tenant != "" && NonemptyIds(TenantJobs(jobs, tenant))
    ensures Filter(jobs, Visible(tenant, "")) == TenantJobs(jobs, tenant)
  {
    forall x | x in jobs ensures Visible(tenant, "")(x) <==> OfTenant(tenant, x) {
      if OfTenant(tenant, x) {
        assert x in TenantJobs(jobs, tenant);
      }
    }
    FilterAgrees(jobs, Visible(tenant, ""), (j: Job) => OfTenant(tenant, j));
  }

  /** The walk ends, misses and repeats nothing, and goes in id order. */
  lemma {:induction false} PagingIsComplete(jobs: seq<Job>, tenant: string, limits: nat -> int)
    requires tenant != "" && ValidLimits(limits)
    requires DistinctJobIds(TenantJobs(jobs, tenant)) && NonemptyIds(TenantJobs(jobs, tenant))
    ensures VisitsAllOnce(jobs, tenant, limits)
    ensures Ascending(Walk(PagerOf(jobs, tenant), "", limits, 0, |jobs|).value)
  {
    AllVisible(jobs, tenant);
    ListingAscends(jobs, tenant, "");
    WalkOfJobs(jobs, tenant, limits);
  }

  /** Pages hold nothing at or below their cursor, and no more than was asked for. */
  ghost predicate PageAbove(pager: Pager, after: string, limit: int) {
    pager(after, limit).Some? ==>
      var page := pager(after, limit).value;
      |page| <= limit && forall x :: x in page ==> Less(after, x.id)
  }

  lemma PagesAbove(jobs: seq<Job>, tenant: string, after: string, limit: int)
    ensures PageAbove(PagerOf(jobs, tenant), after, limit)
  {
    var page := PageJobs(jobs, tenant, after, limit);
    if page.Some? {
      forall x | x in page.value ensures Less(after, x.id) {
        assert x in Listing(jobs, tenant, after);
        ListingMembers(jobs, tenant, after, x);
      }
    }
  }

  /** A walk only meets ids above its cursor. */
  lemma {:induction false} WalkStaysAbove(pager: Pager, after: string, limits: nat -> int, k: nat, requests: nat, x: Job)
    requires forall cursor, limit :: PageAbove(pager, cursor, limit)
    requires Walk(pager, after, limits, k, requests).Some?
    requires x in Walk(pager, after, limits, k, requests).value
    ensures Less(after, x.id)
    decreases requests
  {
    var page := pager(after, limits(k)).value;
    assert PageAbove(pager, after, limits(k));
    if x !in page {
      var last := page[|page| - 1];
      assert last in page;
      WalkStaysAbove(pager, last.id, limits, k + 1, requests - 1, x);
      LessTransitive(after, last.id, x.id);
    }
  }

  /** With pages of one job, a walk meets ids in ascending order, so none twice. */
  lemma {:induction false} SinglePagesAscend(pager: Pager, after: string, limits: nat -> int, k: nat, requests: nat)
    requires forall cursor, limit :: PageAbove(pager, cursor, limit)
    requires forall i :: limits(i) == 1
    requires Walk(pager, after, limits, k, requests).Some?
    ensures Ascending(Walk(pager, after, limits, k, requests).value)
    decreases requests
  {
    var page := pager(after, 1).value;
    assert PageAbove(pager, after, 1);
    if page != [] {
      SinglePagesAscend(pager, page[0].id, limits, k + 1, requests - 1);
      var rest := Walk(pager, page[0].id, limits, k + 1, requests - 1).value;
      forall j | 0 <= j < |rest| ensures Less(page[0].id, rest[j].id) {
        WalkStaysAbove(pager, page[0].id, limits, k + 1, requests - 1, rest[j]);
      }
      OneBefore(page[0], rest);
      assert page + rest == [page[0]] + rest;
    }
  }

  lemma OneBefore(first: Job, rest: seq<Job>)
    requires Ascending(rest) && forall j :: 0 <= j < |rest| ==> Less(first.id, rest[j].id)
    ensures Ascending([first] + rest)
  {
  }

  /** Jobs that can be listed in ascending order have distinct ids. */
  lemma AscendingMeansDistinct(jobs: seq<Job>, others: seq<Job>, i: int, j: int)
    requires Ascending(jobs) && multiset(jobs) == multiset(others)
    requires 0 <= i < j < |others|
    ensures others[i].id != others[j].id
  {
    if others[i] == others[j] {
      CountedTwice(others, i, j);
      AscendingOnce(jobs, others[i]);
    } else {
      IdOrder();
      assert others[i] in multiset(jobs) && others[j] in multiset(jobs);
    }
  }

  lemma {:induction false} AscendingOnce(jobs: seq<Job>, x: Job)
    requires Ascending(jobs)
    ensures multiset(jobs)[x] <= 1
  {
    if jobs != [] {
      AscendingOnce(jobs[1..], x);
      TailMembers(jobs, x);
      assert jobs == [jobs[0]] + jobs[1..];
    }
  }

  /** Paging is complete exactly when the tenant's jobs have distinct nonempty ids: of two jobs
      with one id, one is lost at a page boundary, and an empty id is never above a cursor. */
  lemma PagingCompleteExactly(jobs: seq<Job>, tenant: string)
    requires tenant != ""
    ensures PagingComplete(jobs, tenant) <==>
      DistinctJobIds(TenantJobs(jobs, tenant)) && NonemptyIds(TenantJobs(jobs, tenant))
  {
    var mine := TenantJobs(jobs, tenant);
    if PagingComplete(jobs, tenant) {
      var limits := (k: nat) => 1;
      assert ValidLimits(limits) && VisitsAllOnce(jobs, tenant, limits);
      var seen := Walk(PagerOf(jobs, tenant), "", limits, 0, |jobs|).value;
      forall cursor, limit ensures PageAbove(PagerOf(jobs, tenant), cursor, limit) {
        PagesAbove(jobs, tenant, cursor, limit);
      }
      SinglePagesAscend(PagerOf(jobs, tenant), "", limits, 0, |jobs|);
      forall x | x in mine ensures x.id != "" {
        assert x in multiset(seen);
        WalkStaysAbove(PagerOf(jobs, tenant), "", limits, 0, |jobs|, x);
      }
      forall i, j | 0 <= i < j < |mine| ensures mine[i].id != mine[j].id {
        AscendingMeansDistinct(seen, mine, i, j);
      }
    }
    if DistinctJobIds(mine) && NonemptyIds(mine) {
      forall limits: nat -> int | ValidLimits(limits) ensures VisitsAllOnce(jobs, tenant, limits) {
        PagingIsComplete(jobs, tenant, limits);
      }
    }
  }
}
