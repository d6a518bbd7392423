/** A leased job: its transitions, and what a whole history of calls guarantees. */
module JobLifecycle {

  import opened Options

  datatype State = Queued | Running | Succeeded | Dead | Cancelled

  datatype Job = Job(
    id: string, tenant: string, key: string, payload: string, state: State,
    attempts: int, due: int, owner: string, leaseUntil: int, updated: int)

  datatype Submission = Submission(id: string, tenant: string, key: string, payload: string, now: int)

  function Max(a: int, b: int): int {
    if a < b then b else a
  }

  // ------------------------------------------------------------ transitions; None is ValueError

  function CreateJob(request: Submission): Option<Job> {
    if request.id == "" || request.tenant == "" || request.now < 0 then None
    else Some(Job(request.id, request.tenant, request.key, request.payload, Queued, 0, request.now, "", 0, request.now))
  }

  function Claim(job: Job, worker: string, now: int, ttl: int): Option<Job> {
    if worker == "" || now < 0 || ttl <= 0 || job.state != Queued || job.due > now then None
    else Some(job.(state := Running, attempts := job.attempts + 1, owner := worker, leaseUntil := now + ttl, updated := now))
  }

  predicate HoldsLease(job: Job, worker: string, now: int) {
    job.state == Running && worker != "" && job.owner == worker && job.leaseUntil > now && now >= Max(0, job.updated)
  }

  function Heartbeat(job: Job, worker: string, now: int, ttl: int): Option<Job> {
    if !HoldsLease(job, worker, now) || ttl <= 0 then None
    else Some(job.(leaseUntil := Max(job.leaseUntil, now + ttl), updated := now))
  }

  function RequeueExpired(job: Job, now: int): Option<Job> {
    if now < 0 then None
    else if job.state == Running && job.leaseUntil <= now then
      Some(job.(state := Queued, owner := "", leaseUntil := 0, due := now, updated := now))
    else Some(job)
  }

  function Complete(job: Job, worker: string, now: int): Option<Job> {
    if !HoldsLease(job, worker, now) then None
    else Some(job.(state := Succeeded, owner := "", leaseUntil := 0, updated := now))
  }

  function Fail(job: Job, worker: string, now: int, maxAttempts: int, delay: int): Option<Job> {
    if !HoldsLease(job, worker, now) || maxAttempts < 1 || delay < 0 then None
    else
      var dead := job.attempts >= maxAttempts;
      Some(job.(state := if dead then Dead else Queued, due := if dead then job.due else now + delay,
                owner := "", leaseUntil := 0, updated := now))
  }

  function Cancel(job: Job, tenant: string, now: int): Option<Job> {
    if tenant == "" || tenant != job.tenant || now < Max(0, job.updated) then None
    else if job.state == Cancelled then Some(job)
    else if job.state != Queued && job.state != Running then None
    else Some(job.(state := Cancelled, owner := "", leaseUntil := 0, updated := now))
  }

  function Replay(job: Job, tenant: string, now: int): Option<Job> {
    if job.state != Dead || tenant == "" || job.tenant != tenant || now < Max(0, job.updated) then None
    else Some(job.(state := Queued, attempts := 0, owner := "", leaseUntil := 0, due := now, updated := now))
  }

  // ------------------------------------------------------------ histories of calls

  datatype Call =
    | CallClaim(worker: string, now: int, ttl: int)
    | CallHeartbeat(worker: string, now: int, ttl: int)
    | CallRequeue(now: int)
    | CallComplete(worker: string, now: int)
    | CallFail(worker: string, now: int, maxAttempts: int, delay: int)
    | CallCancel(tenant: string, now: int)
    | CallReplay(tenant: string, now: int)

  function Apply(job: Job, call: Call): Option<Job> {
    match call
    case CallClaim(worker, now, ttl) => Claim(job, worker, now, ttl)
    case CallHeartbeat(worker, now, ttl) => Heartbeat(job, worker, now, ttl)
    case CallRequeue(now) => RequeueExpired(job, now)
    case CallComplete(worker, now) => Complete(job, worker, now)
    case CallFail(worker, now, maxAttempts, delay) => Fail(job, worker, now, maxAttempts, delay)
    case CallCancel(tenant, now) => Cancel(job, tenant, now)
    case CallReplay(tenant, now) => Replay(job, tenant, now)
  }

  /** A rejected call leaves the job as it was. */
  function Attempt(job: Job, call: Call): Job {
    var result := Apply(job, call);
    if result.None? then job else result.value
  }

  function After(job: Job, calls: seq<Call>): Job {
    if calls == [] then job
    else
      Attempt(After(job, calls[..|calls| - 1]), calls[|calls| - 1])
  }

  /** What took effect, as an observer would note it down. */
  datatype Entry =
    | Claimed(worker: string, now: int, ttl: int)
    | Renewed(now: int, ttl: int)
    | Requeued(now: int)
    | Completed(now: int)
    | Failed(now: int, maxAttempts: int, delay: int)
    | Stopped(now: int)
    | Replayed(now: int)

  function EntriesOf(job: Job, call: Call): seq<Entry> {
    if Apply(job, call).None? then []
    else match call
      case CallClaim(worker, now, ttl) => [Claimed(worker, now, ttl)]
      case CallHeartbeat(worker, now, ttl) => [Renewed(now, ttl)]
      case CallRequeue(now) => if job.state == Running && job.leaseUntil <= now then [Requeued(now)] else []
      case CallComplete(worker, now) => [Completed(now)]
      case CallFail(worker, now, maxAttempts, delay) => [Failed(now, maxAttempts, delay)]
      case CallCancel(tenant, now) => if job.state == Cancelled then [] else [Stopped(now)]
      case CallReplay(tenant, now) => [Replayed(now)]
  }

  function Log(job: Job, calls: seq<Call>): seq<Entry> {
    if calls == [] then []
    else
      var front := calls[..|calls| - 1];
      Log(job, front) + EntriesOf(After(job, front), calls[|calls| - 1])
  }

  // ------------------------------------------------------------ what a log says, on its own

  /** The worker of the latest claim, unless the lease has ended since. */
  function Holder(log: seq<Entry>): Option<string> {
    if log == [] then None
    else match log[|log| - 1]
      case Claimed(worker, _, _) => Some(worker)
      case Renewed(_, _) => Holder(log[..|log| - 1])
      case _ => None
  }

  /** How far the latest claim and its renewals reach. */
  function LeaseEnd(log: seq<Entry>): int {
    if log == [] then 0
    else match log[|log| - 1]
      case Claimed(_, now, ttl) => now + ttl
      case Renewed(now, ttl) => Max(LeaseEnd(log[..|log| - 1]), now + ttl)
      case _ => 0
  }

  /** Claims since creation or the latest replay. */
  function ClaimCount(log: seq<Entry>): nat {
    if log == [] then 0
    else match log[|log| - 1]
      case Claimed(_, _, _) => ClaimCount(log[..|log| - 1]) + 1
      case Replayed(_) => 0
      case _ => ClaimCount(log[..|log| - 1])
  }

  function LatestTime(created: int, log: seq<Entry>): int {
    if log == [] then created else log[|log| - 1].now
  }

  /** A failure is final when the claims before it have used up its attempts. */
  predicate UsesUp(log: seq<Entry>, maxAttempts: int) {
    ClaimCount(log) >= maxAttempts
  }

  function StateAfter(log: seq<Entry>): State {
    if log == [] then Queued
    else match log[|log| - 1]
      case Claimed(_, _, _) => Running
      case Renewed(_, _) => Running
      case Requeued(_) => Queued
      case Completed(_) => Succeeded
      case Failed(_, maxAttempts, _) => if UsesUp(log[..|log| - 1], maxAttempts) then Dead else Queued
      case Stopped(_) => Cancelled
      case Replayed(_) => Queued
  }

  /** When the job is next due: set on creation, requeue, replay and a failure that is retried. */
  function DueAfter(created: int, log: seq<Entry>): int {
    if log == [] then created
    else
      var earlier := DueAfter(created, log[..|log| - 1]);
      match log[|log| - 1]
      case Requeued(now) => now
      case Replayed(now) => now
      case Failed(now, maxAttempts, delay) => if UsesUp(log[..|log| - 1], maxAttempts) then earlier else now + delay
      case _ => earlier
  }

  /** The record a submission and a log amount to. */
  function Recorded(request: Submission, log: seq<Entry>): Job {
    Job(request.id, request.tenant, request.key, request.payload, StateAfter(log), ClaimCount(log),
        DueAfter(request.now, log), if Holder(log).Some? then Holder(log).value else "", LeaseEnd(log),
        LatestTime(request.now, log))
  }

  /** The job is what its log says, and someone holds the lease exactly while it is running. */
  ghost predicate Agrees(job: Job, request: Submission, log: seq<Entry>) {
    job == Recorded(request, log) && (Holder(log).Some? <==> job.state == Running)
  }

  /** Nothing a single transition checks: a queued job is not due before its last update, a lease
      outlasts the last update, and no update was before time zero. */
  ghost predicate Timely(job: Job) {
    && 0 <= job.updated
    && (job.state == Queued ==> job.updated <= job.due)
    && (job.state == Running ==> job.updated < job.leaseUntil && job.owner != "")
  }

  lemma StepKeepsTimely(job: Job, call: Call)
    requires Timely(job) && Apply(job, call).Some?
    ensures Timely(Apply(job, call).value)
    ensures Apply(job, call).value.updated >= job.updated
  {
    match call
    case CallClaim(worker, now, ttl) =>
    case CallHeartbeat(worker, now, ttl) =>
    case CallRequeue(now) =>
    case CallComplete(worker, now) =>
    case CallFail(worker, now, maxAttempts, delay) =>
    case CallCancel(tenant, now) =>
    case CallReplay(tenant, now) =>
  }

  /** How one entry moves a job on. */
  function Advanced(job: Job, e: Entry): Job {
    match e
    case Claimed(worker, now, ttl) =>
      job.(state := Running, attempts := job.attempts + 1, owner := worker, leaseUntil := now + ttl, updated := now)
    case Renewed(now, ttl) => job.(leaseUntil := Max(job.leaseUntil, now + ttl), updated := now)
    case _ =>
      var dead := e.Failed? && job.attempts >= e.maxAttempts;
      Job(job.id, job.tenant, job.key, job.payload,
          if dead then Dead else if e.Completed? then Succeeded else if e.Stopped? then Cancelled else Queued,
          if e.Replayed? then 0 else job.attempts,
          if e.Requeued? || e.Replayed? then e.now else if e.Failed? && !dead then e.now + e.delay else job.due,
          "", 0, e.now)
  }

  /** A call either changes nothing and is not noted, or moves the job on by its entry. */
  lemma CallAdvances(job: Job, call: Call)
    requires Apply(job, call).Some?
    ensures
      var entries := EntriesOf(job, call);
      if entries == [] then Apply(job, call).value == job
      else |entries| == 1 && Apply(job, call).value == Advanced(job, entries[0]) && (entries[0].Renewed? ==> job.state == Running)
  {
  }

  /** One more entry moves on what the log amounts to. */
  lemma RecordAdvances(request: Submission, log: seq<Entry>, e: Entry)
    requires e.Renewed? ==> Holder(log).Some? && StateAfter(log) == Running
    ensures Recorded(request, log + [e]) == Advanced(Recorded(request, log), e)
    ensures Holder(log + [e]).Some? <==> StateAfter(log + [e]) == Running
  {
    assert (log + [e])[..|log|] == log;
  }

  lemma StepKeepsAgreement(job: Job, request: Submission, log: seq<Entry>, call: Call)
    requires Agrees(job, request, log) && Apply(job, call).Some?
    ensures Agrees(Apply(job, call).value, request, log + EntriesOf(job, call))
  {
    var entries := EntriesOf(job, call);
    CallAdvances(job, call);
    if entries == [] {
      assert log + entries == log;
    } else {
      assert entries == [entries[0]];
      RecordAdvances(request, log, entries[0]);
    }
  }

  /** Every history of calls on a created job keeps both. */
  lemma {:induction false} HistoryKept(request: Submission, calls: seq<Call>)
    requires CreateJob(request).Some?
    ensures Timely(After(CreateJob(request).value, calls))
    ensures Agrees(After(CreateJob(request).value, calls), request, Log(CreateJob(request).value, calls))
  {
    var job := CreateJob(request).value;
    if calls != [] {
      var front, call := calls[..|calls| - 1], calls[|calls| - 1];
      HistoryKept(request, front);
      var before := After(job, front);
      if Apply(before, call).Some? {
        StepKeepsTimely(before, call);
        StepKeepsAgreement(before, request, Log(job, front), call);
      } else {
        assert Log(job, front) + [] == Log(job, front);
      }
    }
  }

  // ------------------------------------------------------------ what a record says, in plain terms

  /** Entry `c` is the latest claim, and nothing but renewals has happened since. */
  ghost predicate HeldSince(log: seq<Entry>, c: int) {
    0 <= c < |log| && log[c].Claimed? && forall k :: c < k < |log| ==> log[k].Renewed?
  }

  /** `end` is the furthest point the claim and its renewals reach. */
  ghost predicate LeaseReaches(log: seq<Entry>, c: int, end: int)
    requires HeldSince(log, c)
  {
    && (forall k :: c <= k < |log| ==> log[k].now + log[k].ttl <= end)
    && exists k :: c <= k < |log| && log[k].now + log[k].ttl == end
  }

  /** The claims with no replay after them. */
  ghost function ClaimsSinceReplay(log: seq<Entry>): set<int> {
    set k | 0 <= k < |log| && log[k].Claimed? && forall j :: k < j < |log| ==> !log[j].Replayed?
  }

  /** Entry `k` says when the job is due again. */
  ghost predicate Reschedules(log: seq<Entry>, k: int) {
    0 <= k < |log| && match log[k]
      case Requeued(_) => true
      case Replayed(_) => true
      case Failed(_, maxAttempts, _) => |ClaimsSinceReplay(log[..k])| < maxAttempts
      case _ => false
  }

  ghost predicate DueIs(created: int, log: seq<Entry>, due: int) {
    || (due == created && forall k :: !Reschedules(log, k))
    || exists k :: Reschedules(log, k) && (forall j :: j > k ==> !Reschedules(log, j)) &&
         due == log[k].now + if log[k].Failed? then log[k].delay else 0
  }

  ghost predicate StateIs(log: seq<Entry>, state: State) {
    if log == [] then state == Queued
    else match log[|log| - 1]
      case Claimed(_, _, _) => state == Running
      case Renewed(_, _) => state == Running
      case Completed(_) => state == Succeeded
      case Failed(_, maxAttempts, _) =>
        state == if |ClaimsSinceReplay(log[..|log| - 1])| >= maxAttempts then Dead else Queued
      case Stopped(_) => state == Cancelled
      case _ => state == Queued
  }

  ghost predicate LeaseIs(log: seq<Entry>, owner: string, end: int) {
    || (exists c :: HeldSince(log, c) && owner == log[c].worker && LeaseReaches(log, c, end))
    || (owner == "" && end == 0 && forall c :: !HeldSince(log, c))
  }

  /** Every field of the record, by what has happened. */
  ghost predicate RecordIs(request: Submission, log: seq<Entry>, job: Job) {
    && job.id == request.id && job.tenant == request.tenant && job.key == request.key && job.payload == request.payload
    && StateIs(log, job.state) && job.attempts == |ClaimsSinceReplay(log)| && DueIs(request.now, log, job.due)
    && LeaseIs(log, job.owner, job.leaseUntil)
    && job.updated == if log == [] then request.now else log[|log| - 1].now
  }

  lemma {:induction false} ClaimsCounted(log: seq<Entry>)
    ensures ClaimCount(log) == |ClaimsSinceReplay(log)|
  {
    if log == [] {
      assert ClaimsSinceReplay(log) == {};
    } else {
      var n := |log| - 1;
      var front := log[..n];
      ClaimsCounted(front);
      if log[n].Replayed? {
        assert ClaimsSinceReplay(log) == {};
      } else {
        ClaimsOneMore(front, log[n]);
        assert log == front + [log[n]];
      }
    }
  }

  lemma ClaimsOneMore(front: seq<Entry>, e: Entry)
    requires !e.Replayed?
    ensures ClaimsSinceReplay(front + [e]) == ClaimsSinceReplay(front) + if e.Claimed? then {|front|} else {}
  {
    var log := front + [e];
    forall k ensures k in ClaimsSinceReplay(log) <==> k in ClaimsSinceReplay(front) || (e.Claimed? && k == |front|) {
      if k in ClaimsSinceReplay(front) {
        assert log[k] == front[k];
        forall j | k < j < |log| ensures !log[j].Replayed? {
          assert j < |front| ==> log[j] == front[j];
        }
      }
      if k in ClaimsSinceReplay(log) && k < |front| {
        forall j | k < j < |front| ensures !front[j].Replayed? {
          assert log[j] == front[j];
        }
      }
    }
  }

  lemma {:induction false} HolderHeld(log: seq<Entry>)
    ensures Holder(log).Some? ==> exists c :: HeldSince(log, c) && Holder(log) == Some(log[c].worker) && LeaseReaches(log, c, LeaseEnd(log))
    ensures Holder(log).None? ==> forall c :: !HeldSince(log, c)
  {
    if log != [] {
      var n := |log| - 1;
      var front := log[..n];
      if log[n].Claimed? {
        assert HeldSince(log, n) && LeaseReaches(log, n, log[n].now + log[n].ttl);
      } else if log[n].Renewed? {
        HolderHeld(front);
        if Holder(log).Some? {
          var c :| HeldSince(front, c) && Holder(front) == Some(front[c].worker) && LeaseReaches(front, c, LeaseEnd(front));
          RenewalReaches(log, c, LeaseEnd(front));
        } else {
          forall c ensures !HeldSince(log, c) {
            assert HeldSince(log, c) ==> HeldSince(front, c);
          }
        }
      }
    }
  }

  lemma RenewalReaches(log: seq<Entry>, c: int, end: int)
    requires log != [] && log[|log| - 1].Renewed?
    requires HeldSince(log[..|log| - 1], c) && LeaseReaches(log[..|log| - 1], c, end)
    ensures HeldSince(log, c)
    ensures LeaseReaches(log, c, Max(end, log[|log| - 1].now + log[|log| - 1].ttl))
  {
    var n := |log| - 1;
    var k :| c <= k < n && log[..n][k].now + log[..n][k].ttl == end;
    assert log[k].now + log[k].ttl == end;
    forall j | c <= j < n ensures log[j].now + log[j].ttl <= end {
      assert log[..n][j] == log[j];
    }
    assert log[n].now + log[n].ttl == log[|log| - 1].now + log[|log| - 1].ttl;
  }

  lemma ReschedulesFront(log: seq<Entry>, k: int)
    requires log != [] && k < |log| - 1
    ensures Reschedules(log, k) <==> Reschedules(log[..|log| - 1], k)
  {
    if k >= 0 {
      assert log[..|log| - 1][..k] == log[..k];
    }
  }

  lemma {:induction false} DueCounted(created: int, log: seq<Entry>)
    ensures DueIs(created, log, DueAfter(created, log))
  {
    if log != [] {
      var n := |log| - 1;
      var front := log[..n];
      DueCounted(created, front);
      ClaimsCounted(front);
      forall k | k < n ensures Reschedules(log, k) <==> Reschedules(front, k) {
        ReschedulesFront(log, k);
      }
      if Reschedules(log, n) {
        assert forall j :: j > n ==> !Reschedules(log, j);
      } else {
        DueStays(created, log, DueAfter(created, front));
      }
    }
  }

  lemma DueStays(created: int, log: seq<Entry>, due: int)
    requires log != [] && DueIs(created, log[..|log| - 1], due) && !Reschedules(log, |log| - 1)
    requires forall k :: k < |log| - 1 ==> (Reschedules(log, k) <==> Reschedules(log[..|log| - 1], k))
    ensures DueIs(created, log, due)
  {
    var n := |log| - 1;
    var front := log[..n];
    if k :| Reschedules(front, k) && (forall j :: j > k ==> !Reschedules(front, j)) && due == front[k].now + if front[k].Failed? then front[k].delay else 0 {
      assert log[k] == front[k];
      forall j | j > k ensures !Reschedules(log, j) {
        assert j < n ==> !Reschedules(front, j);
      }
    } else {
      forall k ensures !Reschedules(log, k) {
        assert k < n ==> !Reschedules(front, k);
      }
    }
  }

  lemma RecordedIs(request: Submission, log: seq<Entry>)
    requires Holder(log).Some? <==> StateAfter(log) == Running
    ensures RecordIs(request, log, Recorded(request, log))
  {
    ClaimsCounted(log);
    HolderHeld(log);
    DueCounted(request.now, log);
    if log != [] {
      ClaimsCounted(log[..|log| - 1]);
    }
  }

  /** A job can be created exactly for a named tenant and id from time zero on; after any history
      of calls, every field of its record is what has happened to it. */
  lemma {:induction false} RecordExactly(request: Submission, calls: seq<Call>)
    ensures CreateJob(request) == None <==> request.id == "" || request.tenant == "" || request.now < 0
    ensures CreateJob(request).Some? ==>
      RecordIs(request, Log(CreateJob(request).value, calls), After(CreateJob(request).value, calls))
  {
    if CreateJob(request).Some? {
      HistoryKept(request, calls);
      RecordedIs(request, Log(CreateJob(request).value, calls));
    }
  }

  /** What a call is noted down as when it is accepted; a requeue that finds no lease that has run
      out, and the cancellation of a cancelled job, are accepted and change nothing. */
  ghost predicate NotedAs(job: Job, call: Call, noted: seq<Entry>) {
    match call
    case CallClaim(worker, now, ttl) => noted == [Claimed(worker, now, ttl)]
    case CallHeartbeat(_, now, ttl) => noted == [Renewed(now, ttl)]
    case CallRequeue(now) =>
      if job.state == Running && job.leaseUntil <= now then noted == [Requeued(now)] else noted == []
    case CallComplete(_, now) => noted == [Completed(now)]
    case CallFail(_, now, maxAttempts, delay) => noted == [Failed(now, maxAttempts, delay)]
    case CallCancel(_, now) => if job.state == Cancelled then noted == [] else noted == [Stopped(now)]
    case CallReplay(_, now) => noted == [Replayed(now)]
  }

  /** Every accepted call is noted down as what it was, and a rejected call is not. */
  lemma NotedExactly(job: Job, calls: seq<Call>, call: Call)
    ensures
      var before := After(job, calls);
      if Apply(before, call).None? then Log(job, calls + [call]) == Log(job, calls)
      else exists noted :: NotedAs(before, call, noted) && Log(job, calls + [call]) == Log(job, calls) + noted
  {
    assert (calls + [call])[..|calls|] == calls;
    var noted := EntriesOf(After(job, calls), call);
    if Apply(After(job, calls), call).None? {
      assert Log(job, calls) + noted == Log(job, calls);
    } else {
      assert NotedAs(After(job, calls), call, noted);
    }
  }

  // ------------------------------------------------------------ main results

  /** However calls are ordered and timed, `updated` never goes back. */
  lemma {:induction false} UpdatedNeverDecreases(request: Submission, calls: seq<Call>, more: seq<Call>)
    requires CreateJob(request).Some?
    ensures
      var job := CreateJob(request).value;
      After(job, calls).updated <= After(job, calls + more).updated
  {
    if more == [] {
      assert calls + more == calls;
    } else {
      var n := |more| - 1;
      UpdatedNeverDecreases(request, calls, more[..n]);
      OneMoreCall(request, calls + more[..n], more[n]);
      assert calls + more == (calls + more[..n]) + [more[n]];
    }
  }

  lemma OneMoreCall(request: Submission, calls: seq<Call>, call: Call)
    requires CreateJob(request).Some?
    ensures
      var job := CreateJob(request).value;
      After(job, calls).updated <= After(job, calls + [call]).updated
  {
    var job := CreateJob(request).value;
    assert (calls + [call])[..|calls|] == calls;
    HistoryKept(request, calls);
    AttemptNeverDecreases(After(job, calls), call);
  }

  lemma AttemptNeverDecreases(job: Job, call: Call)
    requires Timely(job)
    ensures Attempt(job, call).updated >= job.updated
  {
    if Apply(job, call).Some? {
      StepKeepsTimely(job, call);
    }
  }

  /** Heartbeat, completion and failure succeed for exactly one worker: the one whose claim is the
      latest with no requeue, failure, cancellation or completion since, and only from the time of
      the latest entry until the lease it and its renewals obtained runs out. */
  lemma {:induction false} LeaseExactly(request: Submission, calls: seq<Call>, worker: string, now: int, ttl: int, maxAttempts: int, delay: int)
    requires CreateJob(request).Some?
    ensures
      var job := After(CreateJob(request).value, calls);
      var log := Log(CreateJob(request).value, calls);
      var inLease := Holder(log) == Some(worker) && LatestTime(request.now, log) <= now < LeaseEnd(log);
      && (Heartbeat(job, worker, now, ttl).Some? <==> inLease && ttl > 0)
      && (Complete(job, worker, now).Some? <==> inLease)
      && (Fail(job, worker, now, maxAttempts, delay).Some? <==> inLease && maxAttempts >= 1 && delay >= 0)
  {
    HistoryKept(request, calls);
  }

  /** `attempts` counts the claims since creation or the latest replay. */
  lemma {:induction false} AttemptsExactly(request: Submission, calls: seq<Call>)
    requires CreateJob(request).Some?
    ensures After(CreateJob(request).value, calls).attempts == ClaimCount(Log(CreateJob(request).value, calls))
  {
    HistoryKept(request, calls);
  }

  /** Claims, requeues, cancellations and replays take effect exactly when the log allows them: on
      a due job that is waiting, on a lease that has run out, for the tenant on a job that has not
      ended, and for the tenant on a job that has failed for good. */
  lemma {:induction false} GuardsExactly(request: Submission, calls: seq<Call>, who: string, now: int, ttl: int)
    requires CreateJob(request).Some?
    ensures
      var job := After(CreateJob(request).value, calls);
      var log := Log(CreateJob(request).value, calls);
      var latest := LatestTime(request.now, log);
      && (Claim(job, who, now, ttl).Some? <==>
            StateAfter(log) == Queued && DueAfter(request.now, log) <= now && who != "" && ttl > 0)
      && (RequeueExpired(job, now) == None <==> now < 0)
      && (RequeueExpired(job, now) == Some(job) <==> now >= 0 && !(Holder(log).Some? && LeaseEnd(log) <= now))
      && (Cancel(job, who, now).Some? <==>
            who == request.tenant && latest <= now && StateAfter(log) in {Queued, Running, Cancelled})
      && (Replay(job, who, now).Some? <==> who == request.tenant && latest <= now && StateAfter(log) == Dead)
  {
    HistoryKept(request, calls);
  }

  /** The job has reached a state that no call leaves. */
  predicate IsFinal(job: Job) {
    job.state == Succeeded || job.state == Cancelled
  }

  lemma FinalStep(job: Job, call: Call)
    requires IsFinal(job)
    ensures Apply(job, call).None? || Apply(job, call) == Some(job)
    ensures EntriesOf(job, call) == []
  {
    match call
    case CallClaim(worker, now, ttl) =>
    case CallHeartbeat(worker, now, ttl) =>
    case CallRequeue(now) =>
    case CallComplete(worker, now) =>
    case CallFail(worker, now, maxAttempts, delay) =>
    case CallCancel(tenant, now) =>
    case CallReplay(tenant, now) =>
  }

  /** A completed or cancelled job never changes again, and its log never grows. */
  lemma {:induction false} FinalIsFinal(job: Job, calls: seq<Call>)
    requires IsFinal(job)
    ensures After(job, calls) == job
    ensures Log(job, calls) == []
  {
    if calls != [] {
      FinalIsFinal(job, calls[..|calls| - 1]);
      FinalStep(job, calls[|calls| - 1]);
    }
  }

  // ------------------------------------------------------------ retry delay

  function Pow2(n: nat): nat {
    if n == 0 then 1 else 2 * Pow2(n - 1)
  }

  function BitLength(n: nat): nat {
    if n == 0 then 0 else 1 + BitLength(n / 2)
  }

  function Min(a: int, b: int): int {
    if a < b then a else b
  }

  /** Caps without building the power when the exponent already exceeds the cap's bits. */
  function RetryDelay(attempt: int, base: int, cap: int): Option<int> {
    if attempt < 1 || base < 1 || cap < base then None
    else if attempt - 1 >= BitLength(cap) then Some(cap)
    else Some(Min(cap, base * Pow2(attempt - 1)))
  }

  lemma {:induction false} BitsBound(n: nat)
    ensures n < Pow2(BitLength(n))
  {
    if n > 0 {
      BitsBound(n / 2);
    }
  }

  lemma {:induction false} Pow2Monotone(m: nat, n: nat)
    requires m <= n
    ensures Pow2(m) <= Pow2(n)
  {
    if m < n {
      Pow2Monotone(m, n - 1);
    }
  }

  lemma AtLeastFactor(base: int, p: nat)
    requires base >= 1
    ensures base * p >= p
  {
  }

  /** The shortcut agrees with the plain formula on every valid policy, and no other is accepted. */
  lemma RetryDelayIsCapped(attempt: int, base: int, cap: int)
    ensures RetryDelay(attempt, base, cap) == None <==> attempt < 1 || base < 1 || cap < base
    ensures RetryDelay(attempt, base, cap).Some? ==>
      var doubled := base * Pow2(attempt - 1);
      RetryDelay(attempt, base, cap) == Some(if doubled < cap then doubled else cap)
  {
    if RetryDelay(attempt, base, cap).Some? && attempt - 1 >= BitLength(cap) {
      BitsBound(cap);
      Pow2Monotone(BitLength(cap), attempt - 1);
      AtLeastFactor(base, Pow2(attempt - 1));
    }
  }

  lemma DoubledFactor(base: int, p: nat)
    ensures base * (2 * p) == 2 * (base * p)
  {
  }

  /** The delay is the base at first and doubles from attempt to attempt until it meets the cap. */
  lemma RetryDelayDoubles(attempt: int, base: int, cap: int)
    requires attempt >= 1 && base >= 1 && cap >= base
    ensures RetryDelay(1, base, cap) == Some(base)
    ensures RetryDelay(attempt, base, cap).Some? && RetryDelay(attempt + 1, base, cap).Some?
    ensures
      var doubled := 2 * RetryDelay(attempt, base, cap).value;
      RetryDelay(attempt + 1, base, cap).value == if doubled < cap then doubled else cap
  {
    RetryDelayIsCapped(1, base, cap);
    RetryDelayIsCapped(attempt, base, cap);
    RetryDelayIsCapped(attempt + 1, base, cap);
    DoubledFactor(base, Pow2(attempt - 1));
  }
}
