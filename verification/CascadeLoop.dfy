/** The bounded fix-up loop that follows a wave, and the aggregate verdict on a request.

    Detection, fingerprints, review and execution are an adversary: each is an arbitrary
    function of the round in which the loop consults it, so every statement below holds
    whatever the session and the reviewer do. */
module CascadeLoop {
  import opened Sequences
  import opened Graph
  import opened Options
  import opened Plan
  import opened Cascade

  datatype SessionResult = SessionResult(
    finished: bool, completed: seq<string>, failed: seq<string>, blocked: seq<string>,
    skipped: seq<string>, stoppedReason: Option<string>)
  {
    /** The run completed with nothing failed, blocked or skipped. */
    predicate Ok() {
      finished && failed == [] && blocked == [] && skipped == [] && stoppedReason.None?
    }
  }

  datatype StopReason = NoProgress | Oscillation | NothingDischarges

  datatype CascadeOutcome = CascadeOutcome(
    waves: seq<SessionResult>, declined: bool, limitReached: bool, stalled: bool,
    oscillating: bool, unrepairable: bool, stopReason: Option<StopReason>,
    unresolved: seq<string>)
  {
    predicate Clean() {
      && !declined && !limitReached && !stalled && !oscillating && !unrepairable
      && unresolved == []
      && forall k :: 0 <= k < |waves| ==> waves[k].Ok()
    }
  }

  /** Everything outside the loop, indexed by the number of detections made so far. */
  datatype Environment = Environment(
    detect: nat -> seq<SubTask>,
    fingerprint: (nat, seq<SubTask>) -> string,
    approve: (nat, seq<SubTask>) -> Option<seq<SubTask>>,
    run: (nat, seq<SubTask>) -> SessionResult)

  function TaskIds(tasks: seq<SubTask>): (ids: seq<string>)
    ensures |ids| == |tasks|
  {
    seq(|tasks|, i requires 0 <= i < |tasks| => tasks[i].taskId)
  }

  // ------------------------------------------------------------ specification of a run

  datatype Stop = Confirmed | Stalled | Oscillating | Declined | Unrepairable | LimitReached

  /** One whole run: the fingerprints repaired, the plans installed for them and their results,
      why the loop stopped, and the batch it stopped with. */
  datatype Trace = Trace(
    repaired: seq<string>, plans: seq<seq<SubTask>>, waves: seq<SessionResult>,
    stop: Stop, outstanding: seq<SubTask>, clock: nat)

  function Stopped(stop: Stop, outstanding: seq<SubTask>, clock: nat): Trace {
    Trace([], [], [], stop, outstanding, clock)
  }

  function After(repaired: seq<string>, plans: seq<seq<SubTask>>, waves: seq<SessionResult>, rest: Trace): Trace {
    rest.(repaired := repaired + rest.repaired, plans := plans + rest.plans, waves := waves + rest.waves)
  }

  /** What the review of one detected batch comes to. */
  datatype Verdict = Refused | Hopeless | Accepted(plan: seq<SubTask>, result: SessionResult)

  /** Everything one round of the loop would meet, whether or not it gets that far. */
  datatype Round = Round(tasks: seq<SubTask>, fingerprint: string, review: Verdict)

  ghost function RoundAt(env: Environment, clock: nat): Round {
    var tasks := env.detect(clock);
    var approved := env.approve(clock, tasks);
    Round(tasks, env.fingerprint(clock, tasks),
          if approved.None? then Refused
          else
            var plan := Preserve(ObligationsOf(tasks), approved.value);
            if plan.None? || plan.value == [] then Hopeless
            else Accepted(plan.value, env.run(clock, plan.value)))
  }

  ghost function Rounds(env: Environment): nat -> Round {
    (k: nat) => RoundAt(env, k)
  }

  /** One iteration either stops the loop or repairs one broken state. */
  datatype Iteration =
    | Halts(stop: Stop, outstanding: seq<SubTask>, clock: nat)
    | Repairs(fingerprint: string, plan: seq<SubTask>, result: SessionResult)

  function IterationOf(rounds: nat -> Round, seen: seq<string>, clock: nat): Iteration {
    var round := rounds(clock);
    if round.tasks == [] then Halts(Confirmed, rounds(clock + 1).tasks, clock + 2)
    else if round.fingerprint in seen then
      Halts(if round.fingerprint == seen[|seen| - 1] then Stalled else Oscillating, round.tasks, clock + 1)
    else match round.review
      case Refused => Halts(Declined, round.tasks, clock + 1)
      case Hopeless => Halts(Unrepairable, round.tasks, clock + 1)
      case Accepted(plan, result) => Repairs(round.fingerprint, plan, result)
  }

  function RunFrom(rounds: nat -> Round, seen: seq<string>, clock: nat, budget: nat): Trace
    decreases budget
  {
    if budget == 0 then Stopped(LimitReached, rounds(clock).tasks, clock + 1)
    else match IterationOf(rounds, seen, clock)
      case Halts(stop, outstanding, after) => Stopped(stop, outstanding, after)
      case Repairs(fingerprint, plan, result) =>
        After([fingerprint], [plan], [result], RunFrom(rounds, seen + [fingerprint], clock + 1, budget - 1))
  }

  function ReasonFor(stop: Stop): Option<StopReason> {
    match stop
    case Stalled => Some(NoProgress)
    case Oscillating => Some(Oscillation)
    case Unrepairable => Some(NothingDischarges)
    case _ => None
  }

  function OutcomeOf(t: Trace): CascadeOutcome {
    CascadeOutcome(
      t.waves, t.stop == Declined, t.stop == LimitReached, t.stop == Stalled,
      t.stop == Oscillating, t.stop == Unrepairable, ReasonFor(t.stop), TaskIds(t.outstanding))
  }

  // ------------------------------------------------------------ the loop

  /** `rounds` names what the environment has in store. */
  ghost predicate Describes(env: Environment, rounds: nat -> Round) {
    forall k: nat {:trigger RoundAt(env, k)} :: rounds(k) == RoundAt(env, k)
  }

  method Review(env: Environment, clock: nat, tasks: seq<SubTask>, ghost rounds: nat -> Round)
    returns (declined: bool, plan: Option<seq<SubTask>>)
    requires Describes(env, rounds) && tasks == rounds(clock).tasks
    ensures declined <==> rounds(clock).review.Refused?
    ensures plan.Some? <==> rounds(clock).review.Accepted?
    ensures plan.Some? ==> plan.value == rounds(clock).review.plan
  {
    assert rounds(clock) == RoundAt(env, clock);
    var approved := env.approve(clock, tasks);
    if approved.None? {
      return true, None;
    }
    plan := PreserveObligations(tasks, approved.value);
    if plan.Some? && plan.value == [] {
      plan := None;
    }
    declined := false;
  }

  /** The session the loop drives. `rounds` names what its environment has in store. */
  class Session {
    const env: Environment
    ghost const rounds: nat -> Round
    /** Whether the session offers the durable history interface. */
    const durable: bool
    var clock: nat
    var history: seq<string>
    var installed: seq<seq<SubTask>>

    ghost predicate Valid() {
      Describes(env, rounds)
    }

    constructor (env: Environment, durable: bool, history: seq<string>)
      ensures Valid() && this.env == env && this.durable == durable && this.history == history
      ensures clock == 0 && installed == []
    {
      this.env, this.rounds, this.durable, this.history := env, Rounds(env), durable, history;
      clock, installed := 0, [];
    }

    method DetectCascadeTasks() returns (tasks: seq<SubTask>)
      requires Valid()
      modifies this`clock
      ensures tasks == rounds(old(clock)).tasks && clock == old(clock) + 1
    {
      tasks := env.detect(clock);
      assert RoundAt(env, clock).tasks == tasks;
      clock := clock + 1;
    }

    /** The fingerprint of the batch detected last. */
    method StateFingerprint(tasks: seq<SubTask>) returns (fingerprint: string)
      requires Valid() && clock > 0 && tasks == rounds(clock - 1).tasks
      ensures fingerprint == rounds(clock - 1).fingerprint
    {
      assert RoundAt(env, clock - 1).tasks == tasks;
      fingerprint := env.fingerprint(clock - 1, tasks);
    }

    /** Show the batch detected last to the reviewer and put the kernel's postconditions back
        into the reply. */
    method ReviewBatch(tasks: seq<SubTask>) returns (declined: bool, plan: Option<seq<SubTask>>)
      requires Valid() && clock > 0 && tasks == rounds(clock - 1).tasks
      ensures declined <==> rounds(clock - 1).review.Refused?
      ensures plan.Some? <==> rounds(clock - 1).review.Accepted?
      ensures plan.Some? ==> plan.value == rounds(clock - 1).review.plan
    {
      declined, plan := Review(env, clock - 1, tasks, rounds);
    }

    function PersistedHistory(): seq<string>
      reads this`history
    {
      if durable then history else []
    }

    method RememberState(fingerprint: string)
      modifies this`history
      ensures history ==
        if durable && fingerprint !in old(history) then old(history) + [fingerprint] else old(history)
    {
      if durable && fingerprint !in history {
        history := history + [fingerprint];
      }
    }

    method InstallPlan(plan: seq<SubTask>)
      modifies this`installed
      ensures installed == old(installed) + [plan]
    {
      installed := installed + [plan];
    }

    /** Run the plan installed for the batch detected last. */
    method Run(plan: seq<SubTask>) returns (result: SessionResult)
      requires Valid() && clock > 0
      requires rounds(clock - 1).review.Accepted? && rounds(clock - 1).review.plan == plan
      ensures result == rounds(clock - 1).review.result
    {
      assert RoundAt(env, clock - 1).review == rounds(clock - 1).review;
      result := env.run(clock - 1, plan);
    }
  }

  lemma AfterAfter(r: seq<string>, p: seq<seq<SubTask>>, w: seq<SessionResult>,
                   f: string, plan: seq<SubTask>, result: SessionResult, rest: Trace)
    ensures After(r, p, w, After([f], [plan], [result], rest)) == After(r + [f], p + [plan], w + [result], rest)
  {
    assert r + ([f] + rest.repaired) == r + [f] + rest.repaired;
    assert p + ([plan] + rest.plans) == p + [plan] + rest.plans;
    assert w + ([result] + rest.waves) == w + [result] + rest.waves;
  }

  /** One iteration: detect, compare with the states seen, review, remember, install and run. */
  method RunRound(session: Session, seen: seq<string>) returns (iteration: Iteration)
    requires session.Valid()
    requires session.durable ==> seen == session.history
    modifies session
    ensures iteration == IterationOf(session.rounds, seen, old(session.clock))
    ensures session.clock == if iteration.Halts? then iteration.clock else old(session.clock) + 1
    ensures session.installed == old(session.installed) + if iteration.Halts? then [] else [iteration.plan]
    ensures session.history ==
      old(session.history) + if session.durable && iteration.Repairs? then [iteration.fingerprint] else []
  {
    var tasks := session.DetectCascadeTasks();
    if tasks == [] {
      var confirmation := session.DetectCascadeTasks();
      return Halts(Confirmed, confirmation, session.clock);
    }
    var fingerprint := session.StateFingerprint(tasks);
    if fingerprint in seen {
      return Halts(if fingerprint == seen[|seen| - 1] then Stalled else Oscillating, tasks, session.clock);
    }
    var declined, plan := session.ReviewBatch(tasks);
    if declined {
      return Halts(Declined, tasks, session.clock);
    }
    if plan.None? {
      return Halts(Unrepairable, tasks, session.clock);
    }
    session.RememberState(fingerprint);
    session.InstallPlan(plan.value);
    var result := session.Run(plan.value);
    return Repairs(fingerprint, plan.value, result);
  }

  /** The flags and the reason each branch of an iteration that ends the loop sets. */
  method Flags(stop: Stop)
    returns (declined: bool, stalled: bool, oscillating: bool, unrepairable: bool, stopReason: Option<StopReason>)
    ensures declined == (stop == Declined) && stalled == (stop == Stalled)
    ensures oscillating == (stop == Oscillating) && unrepairable == (stop == Unrepairable)
    ensures stopReason == ReasonFor(stop)
  {
    declined, stalled, oscillating, unrepairable, stopReason := false, false, false, false, None;
    match stop {
      case Stalled => stalled, stopReason := true, Some(NoProgress);
      case Oscillating => oscillating, stopReason := true, Some(Oscillation);
      case Declined => declined := true;
      case Unrepairable => unrepairable, stopReason := true, Some(NothingDischarges);
      case _ =>
    }
  }

  method RunCascadeWaves(session: Session, maxWaves: int) returns (outcome: CascadeOutcome)
    requires session.Valid()
    modifies session
    ensures
      var t := RunFrom(session.rounds, old(session.PersistedHistory()), old(session.clock), if maxWaves < 0 then 0 else maxWaves);
      && outcome == OutcomeOf(t)
      && session.clock == t.clock
      && session.installed == old(session.installed) + t.plans
      && session.history == old(session.history) + if session.durable then t.repaired else []
  {
    var waves: seq<SessionResult> := [];
    var declined, stalled, oscillating, unrepairable := false, false, false, false;
    var stopReason: Option<StopReason> := None;
    var limitReached := true;
    var seen := session.PersistedHistory();
    var outstanding: seq<SubTask> := [];
    ghost var rounds, installed, history := session.rounds, session.installed, session.history;
    ghost var budget: nat := if maxWaves < 0 then 0 else maxWaves;
    ghost var t := RunFrom(rounds, seen, session.clock, budget);
    ghost var repaired: seq<string> := [];
    ghost var plans: seq<seq<SubTask>> := [];
    var wave := 0;
    while wave < maxWaves
      invariant 0 <= wave <= budget
      invariant limitReached && !declined && !stalled && !oscillating && !unrepairable && stopReason.None?
      invariant t == After(repaired, plans, waves, RunFrom(rounds, seen, session.clock, budget - wave))
      invariant session.installed == installed + plans
      invariant session.history == history + if session.durable then repaired else []
      invariant session.durable ==> seen == session.history
      decreases maxWaves - wave
    {
      var iteration := RunRound(session, seen);
      if iteration.Halts? {
        limitReached := false;
        outstanding := iteration.outstanding;
        declined, stalled, oscillating, unrepairable, stopReason := Flags(iteration.stop);
        assert t == After(repaired, plans, waves, Stopped(iteration.stop, outstanding, session.clock));
        break;
      }
      var Repairs(fingerprint, plan, result) := iteration;
      seen := seen + [fingerprint];
      AfterAfter(repaired, plans, waves, fingerprint, plan, result,
                 RunFrom(rounds, seen, session.clock, budget - wave - 1));
      waves := waves + [result];
      repaired := repaired + [fingerprint];
      plans := plans + [plan];
      wave := wave + 1;
    }
    if limitReached {
      outstanding := session.DetectCascadeTasks();
    }
    outcome := CascadeOutcome(waves, declined, limitReached, stalled, oscillating, unrepairable,
                              stopReason, TaskIds(outstanding));
  }

  // ------------------------------------------------------------ what every run keeps

  /** No broken state is repaired twice, nor one that the history already holds; each repair is
      one installed plan and one wave, and the budget bounds them. */
  lemma {:induction false} RunNeverRepeats(rounds: nat -> Round, seen: seq<string>, clock: nat, budget: nat)
    ensures
      var t := RunFrom(rounds, seen, clock, budget);
      && Distinct(t.repaired)
      && (forall f :: f in t.repaired ==> f !in seen)
      && |t.repaired| == |t.plans| == |t.waves| <= budget
    decreases budget
  {
    var t := RunFrom(rounds, seen, clock, budget);
    if t.waves != [] {
      var f := rounds(clock).fingerprint;
      RunNeverRepeats(rounds, seen + [f], clock + 1, budget - 1);
      DistinctConcat([f], RunFrom(rounds, seen + [f], clock + 1, budget - 1).repaired);
    }
  }

  ghost predicate FingerprintsIn(rounds: nat -> Round, universe: set<string>) {
    forall k :: rounds(k).fingerprint in universe
  }

  lemma {:induction false} RepairedInUniverse(rounds: nat -> Round, seen: seq<string>, clock: nat, budget: nat, universe: set<string>)
    requires FingerprintsIn(rounds, universe)
    ensures forall f :: f in RunFrom(rounds, seen, clock, budget).repaired ==> f in universe
    decreases budget
  {
    if RunFrom(rounds, seen, clock, budget).waves != [] {
      var f := rounds(clock).fingerprint;
      RepairedInUniverse(rounds, seen + [f], clock + 1, budget - 1, universe);
    }
  }

  /** The fingerprints repaired by a chain of runs, each reloading what the ones before it
      remembered. A process that dies after some waves is a run with that smaller budget. */
  ghost function RepairedAcross(rounds: nat -> Round, history: seq<string>, clock: nat, budgets: seq<nat>): seq<string>
    decreases |budgets|
  {
    if budgets == [] then []
    else
      var t := RunFrom(rounds, history, clock, budgets[0]);
      t.repaired + RepairedAcross(rounds, history + t.repaired, t.clock, budgets[1..])
  }

  /** Restarts do not make the loop repair a state again. */
  lemma {:induction false} RestartsNeverRepeat(rounds: nat -> Round, history: seq<string>, clock: nat, budgets: seq<nat>)
    ensures Distinct(RepairedAcross(rounds, history, clock, budgets))
    ensures forall f :: f in RepairedAcross(rounds, history, clock, budgets) ==> f !in history
    decreases |budgets|
  {
    if budgets != [] {
      RunNeverRepeats(rounds, history, clock, budgets[0]);
      var t := RunFrom(rounds, history, clock, budgets[0]);
      RestartsNeverRepeat(rounds, history + t.repaired, t.clock, budgets[1..]);
      DistinctConcat(t.repaired, RepairedAcross(rounds, history + t.repaired, t.clock, budgets[1..]));
    }
  }

  /** When only finitely many broken states exist, all restarts together run at most as many
      waves as there are states outside the initial history. */
  lemma RestartsBounded(rounds: nat -> Round, history: seq<string>, clock: nat, budgets: seq<nat>, universe: set<string>)
    requires FingerprintsIn(rounds, universe)
    ensures |RepairedAcross(rounds, history, clock, budgets)| <= |universe - set f | f in history|
  {
    RestartsNeverRepeat(rounds, history, clock, budgets);
    AcrossInUniverse(rounds, history, clock, budgets, universe);
    DistinctCard(RepairedAcross(rounds, history, clock, budgets), universe - set f | f in history);
  }

  lemma {:induction false} AcrossInUniverse(rounds: nat -> Round, history: seq<string>, clock: nat, budgets: seq<nat>, universe: set<string>)
    requires FingerprintsIn(rounds, universe)
    ensures forall f :: f in RepairedAcross(rounds, history, clock, budgets) ==> f in universe
    decreases |budgets|
  {
    if budgets != [] {
      RepairedInUniverse(rounds, history, clock, budgets[0], universe);
      var t := RunFrom(rounds, history, clock, budgets[0]);
      AcrossInUniverse(rounds, history + t.repaired, t.clock, budgets[1..], universe);
    }
  }

  /** Every wave completed with nothing failed, blocked or skipped, and was not stopped. */
  ghost predicate AllOk(waves: seq<SessionResult>) {
    forall k :: 0 <= k < |waves| ==>
      && waves[k].finished && waves[k].stoppedReason == None
      && |waves[k].failed| + |waves[k].blocked| + |waves[k].skipped| == 0
  }

  /** The loop reports a clean outcome exactly when the detection after its last wave, and the
      one confirming it, found nothing, below the ceiling, and every wave was ok. */
  lemma {:induction false} CleanExactly(rounds: nat -> Round, seen: seq<string>, clock: nat, budget: nat)
    ensures
      var t := RunFrom(rounds, seen, clock, budget);
      OutcomeOf(t).Clean() <==>
        && |t.waves| < budget
        && rounds(clock + |t.waves|).tasks == [] && rounds(clock + |t.waves| + 1).tasks == []
        && AllOk(t.waves)
    decreases budget
  {
    StopsConfirmedExactly(rounds, seen, clock, budget);
    var t := RunFrom(rounds, seen, clock, budget);
    assert TaskIds(t.outstanding) == [] <==> t.outstanding == [];
  }

  lemma {:induction false} StopsConfirmedExactly(rounds: nat -> Round, seen: seq<string>, clock: nat, budget: nat)
    ensures
      var t := RunFrom(rounds, seen, clock, budget);
      && (t.stop == Confirmed <==> |t.waves| < budget && rounds(clock + |t.waves|).tasks == [])
      && (t.stop == Confirmed ==> t.outstanding == rounds(clock + |t.waves| + 1).tasks)
    decreases budget
  {
    var t := RunFrom(rounds, seen, clock, budget);
    if t.waves != [] {
      StopsConfirmedExactly(rounds, seen + [rounds(clock).fingerprint], clock + 1, budget - 1);
    }
  }

  /** The loop ends at its ceiling exactly when all its waves ran, whether or not the last of them
      left anything broken: the detection after it may come up empty, and the outcome is not clean
      even so. */
  lemma {:induction false} LimitReachedExactly(rounds: nat -> Round, seen: seq<string>, clock: nat, budget: nat)
    ensures
      var t := RunFrom(rounds, seen, clock, budget);
      var outcome := OutcomeOf(t);
      && (outcome.limitReached <==> |t.waves| == budget)
      && (outcome.limitReached && outcome.unresolved == [] <==> |t.waves| == budget && rounds(clock + budget).tasks == [])
      && (outcome.limitReached ==> !outcome.Clean())
    decreases budget
  {
    StopsAtLimitExactly(rounds, seen, clock, budget);
    var t := RunFrom(rounds, seen, clock, budget);
    assert TaskIds(t.outstanding) == [] <==> t.outstanding == [];
  }

  lemma {:induction false} StopsAtLimitExactly(rounds: nat -> Round, seen: seq<string>, clock: nat, budget: nat)
    ensures
      var t := RunFrom(rounds, seen, clock, budget);
      && |t.waves| <= budget
      && (t.stop == LimitReached <==> |t.waves| == budget)
      && (t.stop == LimitReached ==> t.outstanding == rounds(clock + budget).tasks)
    decreases budget
  {
    var t := RunFrom(rounds, seen, clock, budget);
    if t.waves != [] {
      StopsAtLimitExactly(rounds, seen + [rounds(clock).fingerprint], clock + 1, budget - 1);
    }
  }

  /** The states met by the end of a run, oldest first. */
  function Met(seen: seq<string>, repaired: seq<string>): seq<string> {
    seen + repaired
  }

  /** `stop` says of the round the loop ended in what was the case: the budget used up, nothing
      detected, the latest or an older state met again, the batch refused, or a reviewed plan that
      cannot discharge it. */
  ghost predicate StopIsJustified(stop: Stop, round: Round, met: seq<string>, withinBudget: bool) {
    var again := round.fingerprint in met;
    && (stop == LimitReached <==> !withinBudget)
    && (stop == Confirmed <==> withinBudget && round.tasks == [])
    && (stop == Stalled <==> withinBudget && round.tasks != [] && again && round.fingerprint == met[|met| - 1])
    && (stop == Oscillating <==> withinBudget && round.tasks != [] && again && round.fingerprint != met[|met| - 1])
    && (stop == Declined <==> withinBudget && round.tasks != [] && !again && round.review.Refused?)
    && (stop == Unrepairable <==> withinBudget && round.tasks != [] && !again && round.review.Hopeless?)
  }

  /** The stop and the batch of `t` are those of the round it ended in: the batch is the one of the
      confirming detection, or that of the round itself. */
  ghost predicate EndsInRound(rounds: nat -> Round, seen: seq<string>, clock: nat, budget: nat, t: Trace) {
    var last := clock + |t.waves|;
    && StopIsJustified(t.stop, rounds(last), Met(seen, t.repaired), |t.waves| < budget)
    && t.outstanding == rounds(if t.stop == Confirmed then last + 1 else last).tasks
  }

  lemma EndsAtOnce(rounds: nat -> Round, seen: seq<string>, clock: nat, budget: nat)
    requires RunFrom(rounds, seen, clock, budget).waves == []
    ensures EndsInRound(rounds, seen, clock, budget, RunFrom(rounds, seen, clock, budget))
  {
    assert Met(seen, []) == seen;
  }

  lemma EndsLater(rounds: nat -> Round, seen: seq<string>, clock: nat, budget: nat, f: string, rest: Trace, t: Trace)
    requires budget > 0 && EndsInRound(rounds, seen + [f], clock + 1, budget - 1, rest)
    requires t.repaired == [f] + rest.repaired && |t.waves| == 1 + |rest.waves|
    requires t.stop == rest.stop && t.outstanding == rest.outstanding
    ensures EndsInRound(rounds, seen, clock, budget, t)
  {
    MetOneMore(seen, f, rest.repaired);
  }

  /** Exactly one reason ends the loop, and the batch it reports is the one it ended with. */
  lemma {:induction false} StopEvidence(rounds: nat -> Round, seen: seq<string>, clock: nat, budget: nat)
    ensures EndsInRound(rounds, seen, clock, budget, RunFrom(rounds, seen, clock, budget))
    decreases budget
  {
    var t := RunFrom(rounds, seen, clock, budget);
    if t.waves == [] {
      EndsAtOnce(rounds, seen, clock, budget);
    } else {
      var f := rounds(clock).fingerprint;
      var rest := FirstRepair(rounds, seen, clock, budget);
      StopEvidence(rounds, seen + [f], clock + 1, budget - 1);
      EndsLater(rounds, seen, clock, budget, f, rest, t);
    }
  }

  /** A run that repairs anything is its first repair followed by the rest. */
  lemma FirstRepair(rounds: nat -> Round, seen: seq<string>, clock: nat, budget: nat) returns (rest: Trace)
    requires RunFrom(rounds, seen, clock, budget).waves != []
    ensures budget > 0 && rest == RunFrom(rounds, seen + [rounds(clock).fingerprint], clock + 1, budget - 1)
    ensures
      var t := RunFrom(rounds, seen, clock, budget);
      && t.repaired == [rounds(clock).fingerprint] + rest.repaired && |t.waves| == 1 + |rest.waves|
      && t.stop == rest.stop && t.outstanding == rest.outstanding
  {
    rest := RunFrom(rounds, seen + [rounds(clock).fingerprint], clock + 1, budget - 1);
  }

  lemma MetOneMore(seen: seq<string>, f: string, rest: seq<string>)
    ensures Met(seen, [f] + rest) == Met(seen + [f], rest)
  {
    assert seen + ([f] + rest) == (seen + [f]) + rest;
  }

  /** The k-th plan a run installs is the accepted plan of its k-th round. */
  lemma {:induction false} PlanOfRound(rounds: nat -> Round, seen: seq<string>, clock: nat, budget: nat, k: nat)
    requires k < |RunFrom(rounds, seen, clock, budget).plans|
    ensures rounds(clock + k).review.Accepted?
    ensures RunFrom(rounds, seen, clock, budget).plans[k] == rounds(clock + k).review.plan
    decreases budget
  {
    if k > 0 {
      PlanOfRound(rounds, seen + [rounds(clock).fingerprint], clock + 1, budget - 1, k - 1);
    }
  }

  // ------------------------------------------------------------ the outcome that is reported

  /** Round `k` of the run was repaired: it found a batch, whose state was not met before, and the
      reviewed plan was installed and run. */
  ghost predicate Repaired(round: Round, met: seq<string>, fingerprint: string, plan: seq<SubTask>, result: SessionResult) {
    && round.tasks != [] && round.fingerprint !in met
    && round.review == Accepted(plan, result) && fingerprint == round.fingerprint
  }

  lemma RepairedLater(rounds: nat -> Round, seen: seq<string>, clock: nat, budget: nat, k: nat)
    requires budget > 0 && IterationOf(rounds, seen, clock).Repairs? && k > 0
    requires k < |RunFrom(rounds, seen, clock, budget).waves|
    ensures
      var t := RunFrom(rounds, seen, clock, budget);
      var rest := RunFrom(rounds, seen + [rounds(clock).fingerprint], clock + 1, budget - 1);
      && |t.repaired| == 1 + |rest.repaired| && |t.plans| == 1 + |rest.plans| && |t.waves| == 1 + |rest.waves|
      && (k - 1 < |rest.repaired| && k - 1 < |rest.plans| ==>
            t.repaired[k] == rest.repaired[k - 1] && t.plans[k] == rest.plans[k - 1] && t.waves[k] == rest.waves[k - 1]
            && seen + t.repaired[..k] == (seen + [rounds(clock).fingerprint]) + rest.repaired[..k - 1])
  {
  }

  /** Every wave of a run is the wave of its round, in order. */
  lemma {:induction false} WavesAreRepairs(rounds: nat -> Round, seen: seq<string>, clock: nat, budget: nat, k: nat)
    requires k < |RunFrom(rounds, seen, clock, budget).waves|
    ensures
      var t := RunFrom(rounds, seen, clock, budget);
      && |t.repaired| == |t.plans| == |t.waves|
      && Repaired(rounds(clock + k), seen + t.repaired[..k], t.repaired[k], t.plans[k], t.waves[k])
    decreases budget
  {
    RunNeverRepeats(rounds, seen, clock, budget);
    if k == 0 {
      assert seen + RunFrom(rounds, seen, clock, budget).repaired[..0] == seen;
    } else {
      RepairedLater(rounds, seen, clock, budget, k);
      WavesAreRepairs(rounds, seen + [rounds(clock).fingerprint], clock + 1, budget - 1, k - 1);
    }
  }

  /** A batch was found within the budget. */
  ghost predicate FoundWork(round: Round, waves: nat, budget: nat) {
    waves < budget && round.tasks != []
  }

  /** The flags are set by the round the run ended in: the latest state again, an older one again, a
      new one that was refused, or a new one whose reviewed plan is hopeless; or by the budget. */
  ghost predicate FlagsAre(outcome: CascadeOutcome, round: Round, met: seq<string>, waves: nat, budget: nat) {
    var found := FoundWork(round, waves, budget);
    && (outcome.limitReached <==> waves == budget)
    && (outcome.stalled <==> found && met != [] && round.fingerprint == met[|met| - 1])
    && (outcome.oscillating <==> found && round.fingerprint in met && round.fingerprint != met[|met| - 1])
    && (outcome.declined <==> found && round.fingerprint !in met && round.review == Refused)
    && (outcome.unrepairable <==> found && round.fingerprint !in met && round.review == Hopeless)
  }

  /** A reason is given exactly for the three ways in which the kernel itself stops. */
  ghost predicate ReasonIs(outcome: CascadeOutcome, round: Round, met: seq<string>, waves: nat, budget: nat) {
    var found := FoundWork(round, waves, budget);
    && (outcome.stopReason == Some(NoProgress) <==> found && met != [] && round.fingerprint == met[|met| - 1])
    && (outcome.stopReason == Some(Oscillation) <==>
          found && round.fingerprint in met && round.fingerprint != met[|met| - 1])
    && (outcome.stopReason == Some(NothingDischarges) <==>
          found && round.fingerprint !in met && round.review == Hopeless)
  }

  /** The ids of the batch, in order. */
  ghost predicate IdsOf(unresolved: seq<string>, tasks: seq<SubTask>) {
    |unresolved| == |tasks| && forall k :: 0 <= k < |tasks| ==> unresolved[k] == tasks[k].taskId
  }

  /** What the loop reports follows from the round it ended in, the states met by then, and the
      budget. */
  lemma {:induction false} OutcomeExactly(rounds: nat -> Round, seen: seq<string>, clock: nat, budget: nat)
    ensures
      var t := RunFrom(rounds, seen, clock, budget);
      var outcome, n := OutcomeOf(t), |t.waves|;
      && outcome.waves == t.waves && n <= budget
      && FlagsAre(outcome, rounds(clock + n), seen + t.repaired, n, budget)
      && ReasonIs(outcome, rounds(clock + n), seen + t.repaired, n, budget)
      && IdsOf(outcome.unresolved,
               if n < budget && rounds(clock + n).tasks == [] then rounds(clock + n + 1).tasks else rounds(clock + n).tasks)
  {
    var t := RunFrom(rounds, seen, clock, budget);
    StopEvidence(rounds, seen, clock, budget);
    StopsAtLimitExactly(rounds, seen, clock, budget);
    LastOfMet(seen + t.repaired);
  }

  lemma LastOfMet(met: seq<string>)
    ensures met != [] ==> met[|met| - 1] in met
  {
  }

  /** What a round meets is what the environment answers for it: the batch detected, its
      fingerprint, and the reviewed plan with the obligations put back, if there is one. */
  lemma RoundExactly(env: Environment, k: nat)
    ensures
      var round, approved := Rounds(env)(k), env.approve(k, env.detect(k));
      && round.tasks == env.detect(k) && round.fingerprint == env.fingerprint(k, env.detect(k))
      && (round.review == Refused <==> approved == None)
      && forall plan, result :: round.review == Accepted(plan, result) <==>
           && approved.Some? && Preserve(ObligationsOf(env.detect(k)), approved.value) == Some(plan)
           && plan != [] && result == env.run(k, plan)
  {
  }

  /** Reviewed plans have distinct ids and no cycle, as plan installation demands. */
  ghost predicate ReviewsSoundly(env: Environment) {
    forall k, tasks :: env.approve(k, tasks).Some? ==>
      DistinctIds(env.approve(k, tasks).value) && Acyclic(GraphOf(env.approve(k, tasks).value))
  }

  /** Under sound review, a reviewed plan cannot discharge its batch exactly when it is empty or
      some detected obligation has no task writing its caller or provider file. */
  lemma HopelessExactly(env: Environment, k: nat)
    requires ReviewsSoundly(env) && env.approve(k, env.detect(k)).Some?
    ensures
      var approved := env.approve(k, env.detect(k)).value;
      RoundAt(env, k).review.Hopeless? <==> approved == [] || Unwritten(ObligationsOf(env.detect(k)), approved)
  {
    var obligations, approved := ObligationsOf(env.detect(k)), env.approve(k, env.detect(k)).value;
    PreserveFailsExactly(obligations, approved);
    if Preserve(obligations, approved).Some? {
      PreserveKeepsAcyclic(obligations, approved);
    }
  }

  /** Under sound review, every plan the loop installs is a nonempty acyclic plan in which all
      obligations detected in its round are in place. */
  lemma {:induction false} InstalledPlansDischarge(env: Environment, seen: seq<string>, clock: nat, budget: nat, k: nat)
    requires ReviewsSoundly(env)
    requires k < |RunFrom(Rounds(env), seen, clock, budget).plans|
    ensures
      var plan := RunFrom(Rounds(env), seen, clock, budget).plans[k];
      && plan != [] && DistinctIds(plan) && Acyclic(GraphOf(plan))
      && forall o :: o in ObligationsOf(env.detect(clock + k)) ==> Discharged(plan, o)
  {
    PlanOfRound(Rounds(env), seen, clock, budget, k);
    var tasks := env.detect(clock + k);
    var approved := env.approve(clock + k, tasks).value;
    PreserveKeepsAcyclic(ObligationsOf(tasks), approved);
    PreserveDischarges(ObligationsOf(tasks), approved);
  }

  // ------------------------------------------------------------ the aggregate verdict

  datatype ExecutionResult = ExecutionResult(initial: SessionResult, cascade: CascadeOutcome) {
    /** Every wave that ran, initial first. */
    function Waves(): seq<SessionResult> {
      [initial] + cascade.waves
    }

    /** Failed task ids from wave `from` on, tagged with the wave they belong to. */
    function FailedFrom(from: nat): seq<(nat, string)>
      requires from <= |Waves()|
      decreases |Waves()| - from
    {
      if from == |Waves()| then []
      else
        var ids := Waves()[from].failed;
        seq(|ids|, i requires 0 <= i < |ids| => (from, ids[i])) + FailedFrom(from + 1)
    }

    predicate RequestSatisfied() {
      (forall k :: 0 <= k < |Waves()| ==> Waves()[k].Ok()) && cascade.Clean()
    }
  }

  lemma {:induction false} FailedMembers(e: ExecutionResult, from: nat, k: nat, id: string)
    requires from <= |e.Waves()|
    ensures (k, id) in e.FailedFrom(from) <==> from <= k < |e.Waves()| && id in e.Waves()[k].failed
    decreases |e.Waves()| - from
  {
    if from < |e.Waves()| {
      FailedMembers(e, from + 1, k, id);
      var ids := e.Waves()[from].failed;
      var tagged := seq(|ids|, i requires 0 <= i < |ids| => (from, ids[i]));
      if id in ids {
        var i :| 0 <= i < |ids| && ids[i] == id;
        assert tagged[i] == (from, id);
      }
    }
  }

  function HasTag(k: nat): ((nat, string)) -> bool {
    (entry: (nat, string)) => entry.0 == k
  }

  function Tagged(k: nat, ids: seq<string>): (tagged: seq<(nat, string)>)
    ensures |tagged| == |ids| && forall i :: 0 <= i < |ids| ==> tagged[i] == (k, ids[i])
  {
    seq(|ids|, i requires 0 <= i < |ids| => (k, ids[i]))
  }

  lemma FailedStep(e: ExecutionResult, from: nat)
    requires from < |e.Waves()|
    ensures e.FailedFrom(from) == Tagged(from, e.Waves()[from].failed) + e.FailedFrom(from + 1)
  {
  }

  lemma {:induction false} TagsAscend(e: ExecutionResult, from: nat)
    requires from <= |e.Waves()|
    ensures forall entry :: entry in e.FailedFrom(from) ==> entry.0 >= from
    ensures forall i, j :: 0 <= i < j < |e.FailedFrom(from)| ==> e.FailedFrom(from)[i].0 <= e.FailedFrom(from)[j].0
    decreases |e.Waves()| - from
  {
    if from < |e.Waves()| {
      TagsAscend(e, from + 1);
      FailedStep(e, from);
    }
  }

  /** The listing goes wave by wave (`TagsAscend`), and lists a wave's failed ids as the wave does. */
  lemma {:induction false} FailedInOrder(e: ExecutionResult, from: nat, k: nat)
    requires from <= k < |e.Waves()|
    ensures Filter(e.FailedFrom(from), HasTag(k)) == Tagged(k, e.Waves()[k].failed)
    decreases k - from
  {
    var tagged, rest := Tagged(from, e.Waves()[from].failed), e.FailedFrom(from + 1);
    FailedStep(e, from);
    FilterConcat(tagged, rest, HasTag(k));
    if from < k {
      FailedInOrder(e, from + 1, k);
      FilterOfNone(tagged, HasTag(k));
    } else {
      TagsAscend(e, from + 1);
      FilterOfNone(rest, HasTag(k));
      FilterOfAll(tagged, HasTag(k));
      assert tagged + [] == tagged;
    }
  }

  /** A failure in any wave is reported whatever ran later, and keeps the request unsatisfied. */
  lemma {:induction false} FailureIsNeverCleared(e: ExecutionResult, k: nat, id: string)
    requires k < |e.Waves()| && id in e.Waves()[k].failed
    ensures (k, id) in e.FailedFrom(0)
    ensures !e.RequestSatisfied()
  {
    FailedMembers(e, 0, k, id);
    assert !e.Waves()[k].Ok();
  }

  /** The request is satisfied exactly when the initial wave and the loop both ended clean. */
  lemma {:induction false} SatisfiedExactly(initial: SessionResult, rounds: nat -> Round, seen: seq<string>, clock: nat, budget: nat)
    ensures
      var t := RunFrom(rounds, seen, clock, budget);
      var n := |t.waves|;
      ExecutionResult(initial, OutcomeOf(t)).RequestSatisfied() <==>
        && AllOk([initial]) && n < budget
        && rounds(clock + n).tasks == [] && rounds(clock + n + 1).tasks == []
        && AllOk(t.waves)
  {
    var t := RunFrom(rounds, seen, clock, budget);
    CleanExactly(rounds, seen, clock, budget);
    var e := ExecutionResult(initial, OutcomeOf(t));
    assert e.Waves()[0] == initial;
    assert forall k :: 0 <= k < |t.waves| ==> e.Waves()[k + 1] == t.waves[k];
  }
}
