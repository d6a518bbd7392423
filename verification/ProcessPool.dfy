/** The pool of idle agent processes, shared by the threads that dispatch tasks.

    Every section the source runs under its lock is one atomic step, and so is every step outside
    it (spawning, polling, terminating). Processes may die at any moment; a poll that found a
    process alive may be out of date by the time the section ends. */
module ProcessPool {
  import opened Sequences
  import opened Options
  import opened OrderedDicts

  type Pools = Dict<seq<int>>

  function IdleOf(pools: Pools, kind: string): seq<int> {
    match Lookup(pools, kind)
    case Some(idle) => idle
    case None => []
  }

  /** The configured number of idle processes; nothing or less means no bound. */
  function Cap(caps: map<string, int>, kind: string): int {
    if kind in caps then caps[kind] else 0
  }

  // ------------------------------------------------------------ the sections under the lock

  datatype Taken = Taken(rest: seq<int>, process: Option<int>)

  /** Pop processes until one answers the poll. */
  function TakeLive(idle: seq<int>, answers: int -> bool): Taken {
    if idle == [] then Taken([], None)
    else
      var last := |idle| - 1;
      if answers(idle[last]) then Taken(idle[..last], Some(idle[last])) else TakeLive(idle[..last], answers)
  }

  /** Whether the pool of `kind` has room for one more idle process. */
  predicate HasRoom(caps: map<string, int>, pools: Pools, kind: string) {
    !(Cap(caps, kind) > 0 && |IdleOf(pools, kind)| >= Cap(caps, kind))
  }

  function Remove(idle: seq<int>, process: int): seq<int> {
    if idle == [] then []
    else if idle[0] == process then idle[1..]
    else [idle[0]] + Remove(idle[1..], process)
  }

  function Without(pools: Pools, kind: string, process: int): Pools {
    if process in IdleOf(pools, kind) then Put(pools, kind, Remove(IdleOf(pools, kind), process)) else pools
  }

  function AllIdle(pools: Pools): seq<int> {
    if pools == [] then [] else pools[0].1 + AllIdle(pools[1..])
  }

  // ------------------------------------------------------------ what the sections do, in plain terms

  /** The pools of other kinds are as they were. */
  ghost predicate OthersKept(before: Pools, after: Pools, kind: string) {
    forall other :: other != kind ==> IdleOf(after, other) == IdleOf(before, other)
  }

  /** The process pooled last among those that answer is taken; the ones pooled after it are given
      up, and all of them when none answers. */
  ghost predicate TakesLastAlive(idle: seq<int>, left: seq<int>, answers: int -> bool, process: Option<int>) {
    && left <= idle
    && (forall k :: |left| < k < |idle| ==> !answers(idle[k]))
    && match process
       case Some(p) => |left| < |idle| && p == idle[|left|] && answers(p)
       case None => left == [] && (idle != [] ==> !answers(idle[0]))
  }

  ghost predicate HasPlace(caps: map<string, int>, kind: string, idle: seq<int>) {
    kind !in caps || caps[kind] <= 0 || |idle| < caps[kind]
  }

  /** The first occurrence of the process is taken out, if there is one. */
  ghost predicate TakesOut(idle: seq<int>, left: seq<int>, process: int) {
    if process !in idle then left == idle
    else exists i :: 0 <= i < |idle| && idle[i] == process && process !in idle[..i] && left == idle[..i] + idle[i + 1..]
  }

  function PoolOf(entry: (string, seq<int>)): seq<int> {
    entry.1
  }

  /** Acquiring reuses the process pooled last among those that answer, and gives up exactly the
      ones pooled after it. */
  lemma {:induction false} TakeLiveTakesLast(idle: seq<int>, answers: int -> bool)
    ensures TakesLastAlive(idle, TakeLive(idle, answers).rest, answers, TakeLive(idle, answers).process)
    decreases |idle|
  {
    if idle != [] && !answers(idle[|idle| - 1]) {
      TakeLiveTakesLast(idle[..|idle| - 1], answers);
    }
  }

  lemma TakenOutLater(first: int, rest: seq<int>, left: seq<int>, process: int)
    requires first != process && process in rest && TakesOut(rest, left, process)
    ensures TakesOut([first] + rest, [first] + left, process)
  {
    var idle := [first] + rest;
    var i :| 0 <= i < |rest| && rest[i] == process && process !in rest[..i] && left == rest[..i] + rest[i + 1..];
    assert idle[..i + 1] == [first] + rest[..i] && idle[i + 2..] == rest[i + 1..];
    assert [first] + left == idle[..i + 1] + idle[i + 1 + 1..];
    assert idle[i + 1] == process;
  }

  lemma {:induction false} RemoveTakesOut(idle: seq<int>, process: int)
    ensures TakesOut(idle, Remove(idle, process), process)
    decreases |idle|
  {
    if process in idle {
      if idle[0] == process {
        assert idle[..0] == [] && idle[..0] + idle[0 + 1..] == idle[1..];
      } else {
        RemoveTakesOut(idle[1..], process);
        assert idle == [idle[0]] + idle[1..];
        TakenOutLater(idle[0], idle[1..], Remove(idle[1..], process), process);
      }
    } else {
      NothingToRemove(idle, process);
    }
  }

  lemma {:induction false} NothingToRemove(idle: seq<int>, process: int)
    requires process !in idle
    ensures Remove(idle, process) == idle
  {
    if idle != [] {
      NothingToRemove(idle[1..], process);
    }
  }

  lemma {:induction false} AllIdleFlattened(pools: Pools)
    ensures AllIdle(pools) == Flatten(Map(PoolOf, pools))
    decreases |pools|
  {
    if pools != [] {
      AllIdleFlattened(pools[1..]);
      assert Map(PoolOf, pools) == [PoolOf(pools[0])] + Map(PoolOf, pools[1..]);
    }
  }

  lemma PoolAfterPut(pools: Pools, kind: string, idle: seq<int>)
    ensures IdleOf(Put(pools, kind, idle), kind) == idle
    ensures OthersKept(pools, Put(pools, kind, idle), kind)
  {
    LookupPut(pools, kind, idle, kind);
    forall other | other != kind ensures IdleOf(Put(pools, kind, idle), other) == IdleOf(pools, other) {
      LookupPut(pools, kind, idle, other);
    }
  }

  lemma WithoutTakesOut(pools: Pools, kind: string, process: int)
    ensures TakesOut(IdleOf(pools, kind), IdleOf(Without(pools, kind, process), kind), process)
    ensures OthersKept(pools, Without(pools, kind, process), kind)
  {
    var idle := IdleOf(pools, kind);
    RemoveTakesOut(idle, process);
    PoolAfterPut(pools, kind, Remove(idle, process));
  }

  class AgentRunner {
    const caps: map<string, int>
    var pools: Pools

    constructor (caps: map<string, int>)
      ensures this.caps == caps && pools == []
    {
      this.caps, pools := caps, [];
    }

    /** The locked part of acquiring: `None` means the caller has to spawn. */
    method TakeIdle(kind: string, answers: int -> bool) returns (process: Option<int>)
      modifies this`pools
      ensures process == TakeLive(IdleOf(old(pools), kind), answers).process
      ensures pools == Put(old(pools), kind, TakeLive(IdleOf(old(pools), kind), answers).rest)
      ensures TakesLastAlive(IdleOf(old(pools), kind), IdleOf(pools, kind), answers, process)
      ensures OthersKept(old(pools), pools, kind)
    {
      TakeLiveTakesLast(IdleOf(pools, kind), answers);
      PoolAfterPut(pools, kind, TakeLive(IdleOf(pools, kind), answers).rest);
      var idle := IdleOf(pools, kind);
      while idle != []
        invariant TakeLive(IdleOf(pools, kind), answers) == TakeLive(idle, answers)
      {
        var candidate := idle[|idle| - 1];
        idle := idle[..|idle| - 1];
        if answers(candidate) {
          pools := Put(pools, kind, idle);
          return Some(candidate);
        }
      }
      pools := Put(pools, kind, idle);
      return None;
    }

    /** The locked part of releasing: a process that is not kept is terminated by the caller. */
    method Retain(kind: string, process: int) returns (kept: bool)
      modifies this`pools
      ensures kept <==> HasPlace(caps, kind, IdleOf(old(pools), kind))
      ensures kept ==> pools == Put(old(pools), kind, IdleOf(old(pools), kind) + [process])
      ensures kept ==> IdleOf(pools, kind) == IdleOf(old(pools), kind) + [process] && OthersKept(old(pools), pools, kind)
      ensures !kept ==> pools == old(pools)
    {
      PoolAfterPut(pools, kind, IdleOf(pools, kind) + [process]);
      var cap := Cap(caps, kind);
      var idle := IdleOf(pools, kind);
      if cap > 0 && |idle| >= cap {
        return false;
      }
      pools := Put(pools, kind, idle + [process]);
      return true;
    }

    /** The locked part of dropping. */
    method Forget(kind: string, process: int)
      modifies this`pools
      ensures pools == Without(old(pools), kind, process)
      ensures TakesOut(IdleOf(old(pools), kind), IdleOf(pools, kind), process) && OthersKept(old(pools), pools, kind)
    {
      WithoutTakesOut(pools, kind, process);
      var idle := IdleOf(pools, kind);
      if process in idle {
        pools := Put(pools, kind, Remove(idle, process));
      }
    }

    /** The locked part of shutting down: all idle processes, which the caller terminates. */
    method TakeAll() returns (processes: seq<int>)
      modifies this`pools
      ensures processes == Flatten(Map(PoolOf, old(pools))) && pools == []
    {
      AllIdleFlattened(pools);
      processes := [];
      for i := 0 to |pools|
        invariant AllIdle(pools) == processes + AllIdle(pools[i..])
      {
        assert pools[i..][1..] == pools[i + 1..];
        processes := processes + pools[i].1;
      }
      pools := [];
    }
  }

  // ------------------------------------------------------------ threads and their steps

  /** Where a thread stands, with the processes it answers for. */
  datatype Phase =
    | Resting
    | Spawning(kind: string)
    | Working(kind: string, process: int)
    | Returning(kind: string, process: int)
    | Terminating(process: int)
    | ShuttingDown(rest: seq<int>)

  datatype Machine = Machine(pools: Pools, running: set<int>, spawned: nat, threads: seq<Phase>)

  datatype Step =
    | Acquire(t: nat, kind: string, answers: int -> bool)
    | Spawn(t: nat)
    | SpawnFails(t: nat)
    | PollsAlive(t: nat)
    | PollsDead(t: nat)
    | Keep(t: nat)
    | Drop(t: nat)
    | Terminate(t: nat)
    | Shutdown(t: nat)
    | Dies(process: int)

  /** A poll reports a process dead only if it is. */
  ghost predicate AnswersFit(m: Machine, kind: string, answers: int -> bool) {
    forall p :: p in IdleOf(m.pools, kind) && !answers(p) ==> p !in m.running
  }

  predicate Stands(m: Machine, t: nat) {
    t < |m.threads|
  }

  ghost predicate Enabled(m: Machine, step: Step) {
    match step
    case Acquire(t, kind, answers) => Stands(m, t) && m.threads[t].Resting? && AnswersFit(m, kind, answers)
    case Spawn(t) => Stands(m, t) && m.threads[t].Spawning?
    case SpawnFails(t) => Stands(m, t) && m.threads[t].Spawning?
    case PollsAlive(t) => Stands(m, t) && m.threads[t].Working?
    case PollsDead(t) => Stands(m, t) && m.threads[t].Working? && m.threads[t].process !in m.running
    case Keep(t) => Stands(m, t) && m.threads[t].Returning?
    case Drop(t) => Stands(m, t) && m.threads[t].Working?
    case Terminate(t) => Stands(m, t) && (m.threads[t].Terminating? || m.threads[t].ShuttingDown?)
    case Shutdown(t) => Stands(m, t) && m.threads[t].Resting?
    case Dies(p) => p in m.running
  }

  /** Thread `t` moves on to `phase`, leaving the pools as `pools`. */
  function Moves(m: Machine, t: nat, phase: Phase, pools: Pools): Machine
    requires Stands(m, t)
  {
    m.(threads := m.threads[t := phase], pools := pools)
  }

  ghost function Do(caps: map<string, int>, m: Machine, step: Step): Machine
    requires Enabled(m, step)
  {
    match step
    case Acquire(t, kind, answers) =>
      var taken := TakeLive(IdleOf(m.pools, kind), answers);
      Moves(m, t, if taken.process.Some? then Working(kind, taken.process.value) else Spawning(kind),
            Put(m.pools, kind, taken.rest))
    case Spawn(t) =>
      Moves(m, t, Working(m.threads[t].kind, m.spawned), m.pools).(
        running := m.running + {m.spawned}, spawned := m.spawned + 1)
    case SpawnFails(t) => Moves(m, t, Resting, m.pools)
    case PollsAlive(t) => Moves(m, t, Returning(m.threads[t].kind, m.threads[t].process), m.pools)
    case PollsDead(t) => Moves(m, t, Resting, m.pools)
    case Keep(t) =>
      var Returning(kind, p) := m.threads[t];
      if HasRoom(caps, m.pools, kind) then Moves(m, t, Resting, Put(m.pools, kind, IdleOf(m.pools, kind) + [p]))
      else Moves(m, t, Terminating(p), m.pools)
    case Drop(t) =>
      var Working(kind, p) := m.threads[t];
      Moves(m, t, Terminating(p), Without(m.pools, kind, p))
    case Terminate(t) => TerminateOne(m, t)
    case Shutdown(t) => Moves(m, t, ShuttingDown(AllIdle(m.pools)), [])
    case Dies(p) => m.(running := m.running - {p})
  }

  function TerminateOne(m: Machine, t: nat): Machine
    requires Stands(m, t) && (m.threads[t].Terminating? || m.threads[t].ShuttingDown?)
  {
    match m.threads[t]
    case Terminating(p) => Moves(m, t, Resting, m.pools).(running := m.running - {p})
    case ShuttingDown(rest) =>
      if rest == [] then Moves(m, t, Resting, m.pools)
      else Moves(m, t, ShuttingDown(rest[1..]), m.pools).(running := m.running - {rest[0]})
  }

  ghost predicate Possible(caps: map<string, int>, m: Machine, steps: seq<Step>)
    decreases |steps|
  {
    steps == [] || (Enabled(m, steps[0]) && Possible(caps, Do(caps, m, steps[0]), steps[1..]))
  }

  ghost function Run(caps: map<string, int>, m: Machine, steps: seq<Step>): Machine
    requires Possible(caps, m, steps)
    decreases |steps|
  {
    if steps == [] then m else Run(caps, Do(caps, m, steps[0]), steps[1..])
  }

  function Initial(threads: nat): Machine {
    Machine([], {}, 0, seq(threads, _ => Resting))
  }

  // ------------------------------------------------------------ where processes are

  function Held(phase: Phase): multiset<int> {
    match phase
    case Resting => multiset{}
    case Spawning(_) => multiset{}
    case Working(_, p) => multiset{p}
    case Returning(_, p) => multiset{p}
    case Terminating(p) => multiset{p}
    case ShuttingDown(rest) => multiset(rest)
  }

  function InFlight(threads: seq<Phase>): multiset<int> {
    if threads == [] then multiset{} else Held(threads[0]) + InFlight(threads[1..])
  }

  function Idle(pools: Pools): multiset<int> {
    if pools == [] then multiset{} else multiset(pools[0].1) + Idle(pools[1..])
  }

  lemma {:induction false} AllIdleIsIdle(pools: Pools)
    ensures multiset(AllIdle(pools)) == Idle(pools)
    decreases |pools|
  {
    if pools != [] {
      AllIdleIsIdle(pools[1..]);
    }
  }

  /** Every place a process is in, counted. */
  function Placed(m: Machine): multiset<int> {
    Idle(m.pools) + InFlight(m.threads)
  }

  lemma {:induction false} IdleAfterPut(pools: Pools, kind: string, idle: seq<int>)
    ensures Idle(Put(pools, kind, idle)) + multiset(IdleOf(pools, kind)) == Idle(pools) + multiset(idle)
    decreases |pools|
  {
    var later := Put(pools, kind, idle);
    if pools == [] {
      IdleHead(later, idle, []);
    } else if pools[0].0 == kind {
      IdleHead(later, idle, pools[1..]);
      IdleHead(pools, pools[0].1, pools[1..]);
    } else {
      var rest := pools[1..];
      assert IdleOf(pools, kind) == IdleOf(rest, kind);
      IdleAfterPut(rest, kind, idle);
      IdleHead(later, pools[0].1, Put(rest, kind, idle));
      IdleHead(pools, pools[0].1, rest);
      Exchange(multiset(pools[0].1), Idle(Put(rest, kind, idle)), multiset(IdleOf(rest, kind)), Idle(rest), multiset(idle));
    }
  }

  lemma IdleHead(pools: Pools, head: seq<int>, rest: Pools)
    requires pools != [] && pools[0].1 == head && pools[1..] == rest
    ensures Idle(pools) == multiset(head) + Idle(rest)
  {
  }

  lemma {:induction false} InFlightAfter(threads: seq<Phase>, t: nat, phase: Phase)
    requires t < |threads|
    ensures InFlight(threads[t := phase]) + Held(threads[t]) == InFlight(threads) + Held(phase)
    decreases |threads|
  {
    var rest := threads[1..];
    if t == 0 {
      assert threads[t := phase][1..] == rest;
      InFlightHead(threads[t := phase], phase, rest);
      InFlightHead(threads, threads[0], rest);
    } else {
      var later := rest[t - 1 := phase];
      assert threads[t := phase][1..] == later;
      InFlightAfter(rest, t - 1, phase);
      InFlightHead(threads[t := phase], threads[0], later);
      InFlightHead(threads, threads[0], rest);
      Exchange(Held(threads[0]), InFlight(later), Held(threads[t]), InFlight(rest), Held(phase));
    }
  }

  lemma InFlightHead(threads: seq<Phase>, head: Phase, rest: seq<Phase>)
    requires threads != [] && threads[0] == head && threads[1..] == rest
    ensures InFlight(threads) == Held(head) + InFlight(rest)
  {
  }

  lemma Exchange(common: multiset<int>, a: multiset<int>, b: multiset<int>, c: multiset<int>, d: multiset<int>)
    requires a + b == c + d
    ensures (common + a) + b == (common + c) + d
  {
    assert forall p :: ((common + a) + b)[p] == common[p] + (a + b)[p];
  }

  // ------------------------------------------------------------ what the steps under the lock do

  /** Only thread `t` moves, and no process starts or ends. */
  ghost predicate OnlyMoves(m: Machine, m': Machine, t: nat) {
    && m'.running == m.running && m'.spawned == m.spawned && |m'.threads| == |m.threads|
    && forall u :: 0 <= u < |m.threads| && u != t ==> m'.threads[u] == m.threads[u]
  }

  lemma AcquireExactly(caps: map<string, int>, m: Machine, t: nat, kind: string, answers: int -> bool)
    requires Enabled(m, Acquire(t, kind, answers))
    ensures
      var m' := Do(caps, m, Acquire(t, kind, answers));
      && OnlyMoves(m, m', t) && OthersKept(m.pools, m'.pools, kind)
      && exists process ::
           && TakesLastAlive(IdleOf(m.pools, kind), IdleOf(m'.pools, kind), answers, process)
           && m'.threads[t] == match process case Some(p) => Working(kind, p) case None => Spawning(kind)
  {
    var idle := IdleOf(m.pools, kind);
    var taken := TakeLive(idle, answers);
    TakeLiveTakesLast(idle, answers);
    PoolAfterPut(m.pools, kind, taken.rest);
    assert TakesLastAlive(idle, IdleOf(Do(caps, m, Acquire(t, kind, answers)).pools, kind), answers, taken.process);
  }

  /** A process that is returned goes to the end of its pool, or is to be terminated when the pool
      is full. */
  lemma KeepExactly(caps: map<string, int>, m: Machine, t: nat, kind: string, p: int)
    requires Stands(m, t) && m.threads[t] == Returning(kind, p)
    ensures
      var m' := Do(caps, m, Keep(t));
      && OnlyMoves(m, m', t) && OthersKept(m.pools, m'.pools, kind)
      && if HasPlace(caps, kind, IdleOf(m.pools, kind)) then
           m'.threads[t] == Resting && IdleOf(m'.pools, kind) == IdleOf(m.pools, kind) + [p]
         else m'.threads[t] == Terminating(p) && m'.pools == m.pools
  {
    PoolAfterPut(m.pools, kind, IdleOf(m.pools, kind) + [p]);
  }

  /** A process that is dropped is taken out of its pool and is to be terminated. */
  lemma DropExactly(caps: map<string, int>, m: Machine, t: nat, kind: string, p: int)
    requires Stands(m, t) && m.threads[t] == Working(kind, p)
    ensures
      var m' := Do(caps, m, Drop(t));
      && OnlyMoves(m, m', t) && OthersKept(m.pools, m'.pools, kind)
      && m'.threads[t] == Terminating(p)
      && TakesOut(IdleOf(m.pools, kind), IdleOf(m'.pools, kind), p)
  {
    WithoutTakesOut(m.pools, kind, p);
  }

  /** What one thread has returned, the next one to acquire takes, if it answers, and the pools are
      as they were before the return. */
  lemma LastReturnedIsReused(caps: map<string, int>, m: Machine, t: nat, u: nat, kind: string, p: int, answers: int -> bool)
    requires Stands(m, t) && m.threads[t] == Returning(kind, p) && HasPlace(caps, kind, IdleOf(m.pools, kind))
    requires Stands(m, u) && m.threads[u].Resting? && answers(p)
    requires Enabled(Do(caps, m, Keep(t)), Acquire(u, kind, answers))
    ensures
      var m' := Do(caps, Do(caps, m, Keep(t)), Acquire(u, kind, answers));
      && m'.threads == m.threads[t := Resting][u := Working(kind, p)]
      && forall other :: IdleOf(m'.pools, other) == IdleOf(m.pools, other)
  {
    var idle := IdleOf(m.pools, kind);
    var kept := Do(caps, m, Keep(t));
    KeepExactly(caps, m, t, kind, p);
    AcquireExactly(caps, kept, u, kind, answers);
    assert (idle + [p])[..|idle|] == idle;
    assert TakeLive(idle + [p], answers) == Taken(idle, Some(p));
    forall other ensures IdleOf(Do(caps, kept, Acquire(u, kind, answers)).pools, other) == IdleOf(m.pools, other) {
      if other != kind {
        assert IdleOf(kept.pools, other) == IdleOf(m.pools, other);
      }
    }
  }

  // ------------------------------------------------------------ what every step keeps

  /** No process is in two places, only spawned processes are anywhere, and every running process
      is somewhere. */
  ghost predicate WellPlaced(m: Machine) {
    && (forall p :: Placed(m)[p] <= 1)
    && (forall p :: p in Placed(m) ==> 0 <= p < m.spawned)
    && (forall p :: p in m.running ==> p in Placed(m))
  }

  ghost predicate WithinCaps(caps: map<string, int>, pools: Pools) {
    && DistinctKeys(pools)
    && forall kind :: Cap(caps, kind) > 0 ==> |IdleOf(pools, kind)| <= Cap(caps, kind)
  }

  ghost predicate Safe(caps: map<string, int>, m: Machine) {
    WellPlaced(m) && WithinCaps(caps, m.pools)
  }

  /** A step that takes `x` out of its places and puts `y` back keeps placement when `y` is part
      of `x` and whatever it leaves out is dead. */
  lemma PlacementKept(m: Machine, m': Machine, x: multiset<int>, y: multiset<int>)
    requires WellPlaced(m) && m'.spawned == m.spawned && m'.running <= m.running
    requires Placed(m') + x == Placed(m) + y
    requires forall p :: y[p] <= x[p] && (p in m'.running ==> y[p] == x[p])
    ensures WellPlaced(m')
  {
    forall p ensures Placed(m')[p] <= Placed(m)[p] && (p in m'.running ==> Placed(m')[p] == Placed(m)[p]) {
      assert (Placed(m') + x)[p] == (Placed(m) + y)[p];
    }
  }

  lemma PlacedAfterMove(m: Machine, t: nat, phase: Phase)
    requires Stands(m, t)
    ensures Placed(Moves(m, t, phase, m.pools)) + Held(m.threads[t]) == Placed(m) + Held(phase)
  {
    InFlightAfter(m.threads, t, phase);
    Exchange(Idle(m.pools), InFlight(m.threads[t := phase]), Held(m.threads[t]), InFlight(m.threads), Held(phase));
  }

  lemma PlacedAfterPut(m: Machine, t: nat, phase: Phase, kind: string, idle: seq<int>)
    requires Stands(m, t)
    ensures Placed(Moves(m, t, phase, Put(m.pools, kind, idle))) + (multiset(IdleOf(m.pools, kind)) + Held(m.threads[t])) ==
      Placed(m) + (multiset(idle) + Held(phase))
  {
    InFlightAfter(m.threads, t, phase);
    IdleAfterPut(m.pools, kind, idle);
    Combine(Idle(m.pools), Idle(Put(m.pools, kind, idle)), multiset(IdleOf(m.pools, kind)), multiset(idle),
            InFlight(m.threads), InFlight(m.threads[t := phase]), Held(m.threads[t]), Held(phase));
  }

  lemma Combine(a: multiset<int>, a': multiset<int>, i: multiset<int>, j: multiset<int>,
                b: multiset<int>, b': multiset<int>, h: multiset<int>, k: multiset<int>)
    requires a' + i == a + j && b' + h == b + k
    ensures (a' + b') + (i + h) == (a + b) + (j + k)
  {
    assert (a' + b') + (i + h) == (a' + i) + (b' + h);
    assert (a + b) + (j + k) == (a + j) + (b + k);
  }

  function One(process: Option<int>): multiset<int> {
    if process.Some? then multiset{process.value} else multiset{}
  }

  /** Taking a live process loses only processes that answered dead. */
  lemma {:induction false} TakeLiveCounts(idle: seq<int>, answers: int -> bool, p: int)
    ensures
      var taken := TakeLive(idle, answers);
      var left := (multiset(taken.rest) + One(taken.process))[p];
      && left <= multiset(idle)[p]
      && (answers(p) ==> left == multiset(idle)[p])
      && |taken.rest| <= |idle|
    decreases |idle|
  {
    if idle != [] {
      var last := |idle| - 1;
      assert idle == idle[..last] + [idle[last]];
      if !answers(idle[last]) {
        TakeLiveCounts(idle[..last], answers, p);
      }
    }
  }

  lemma CapsAfterPut(caps: map<string, int>, pools: Pools, kind: string, idle: seq<int>)
    requires WithinCaps(caps, pools)
    requires Cap(caps, kind) > 0 ==> |idle| <= Cap(caps, kind)
    ensures WithinCaps(caps, Put(pools, kind, idle))
  {
    PutKeys(pools, kind, idle);
    forall other ensures IdleOf(Put(pools, kind, idle), other) == if other == kind then idle else IdleOf(pools, other) {
      LookupPut(pools, kind, idle, other);
    }
  }

  lemma AcquireSafe(caps: map<string, int>, m: Machine, t: nat, kind: string, answers: int -> bool)
    requires Safe(caps, m) && Enabled(m, Acquire(t, kind, answers))
    ensures Safe(caps, Do(caps, m, Acquire(t, kind, answers)))
  {
    var idle := IdleOf(m.pools, kind);
    var taken := TakeLive(idle, answers);
    var phase := if taken.process.Some? then Working(kind, taken.process.value) else Spawning(kind);
    assert Held(phase) == One(taken.process);
    PlacedAfterPut(m, t, phase, kind, taken.rest);
    forall p ensures
      var left := (multiset(taken.rest) + Held(phase))[p];
      left <= (multiset(idle) + Held(m.threads[t]))[p] && (p in m.running ==> left == (multiset(idle) + Held(m.threads[t]))[p])
    {
      TakeLiveCounts(idle, answers, p);
    }
    PlacementKept(m, Do(caps, m, Acquire(t, kind, answers)), multiset(idle) + Held(m.threads[t]), multiset(taken.rest) + Held(phase));
    TakeLiveCounts(idle, answers, 0);
    CapsAfterPut(caps, m.pools, kind, taken.rest);
  }

  lemma FreshPlaced(m: Machine, m': Machine)
    requires WellPlaced(m) && m'.spawned == m.spawned + 1 && m'.running == m.running + {m.spawned}
    requires Placed(m') == Placed(m) + multiset{m.spawned}
    ensures WellPlaced(m')
  {
    assert Placed(m)[m.spawned] == 0;
  }

  lemma SpawnSafe(caps: map<string, int>, m: Machine, t: nat)
    requires Safe(caps, m) && Enabled(m, Spawn(t))
    ensures Safe(caps, Do(caps, m, Spawn(t)))
  {
    var phase := Working(m.threads[t].kind, m.spawned);
    PlacedAfterMove(m, t, phase);
    var placed := Placed(Moves(m, t, phase, m.pools));
    assert placed + multiset{} == placed;
    FreshPlaced(m, Do(caps, m, Spawn(t)));
  }

  lemma HeldIsPlaced(threads: seq<Phase>, t: nat, p: int)
    requires t < |threads|
    ensures Held(threads[t])[p] <= InFlight(threads)[p]
  {
    if t > 0 {
      HeldIsPlaced(threads[1..], t - 1, p);
    }
  }

  lemma {:induction false} IdleOfIsIdle(pools: Pools, kind: string, p: int)
    ensures multiset(IdleOf(pools, kind))[p] <= Idle(pools)[p]
    decreases |pools|
  {
    if pools != [] {
      IdleOfIsIdle(pools[1..], kind, p);
    }
  }

  /** A thread's process is in no pool, so a drop never finds it there. */
  lemma {:induction false} DropFindsNothing(m: Machine, t: nat, kind: string)
    requires WellPlaced(m) && Stands(m, t) && m.threads[t].Working?
    ensures Without(m.pools, kind, m.threads[t].process) == m.pools
  {
    var p := m.threads[t].process;
    HeldIsPlaced(m.threads, t, p);
    IdleOfIsIdle(m.pools, kind, p);
    assert Placed(m)[p] == Idle(m.pools)[p] + InFlight(m.threads)[p];
  }

  lemma RetainSafe(caps: map<string, int>, m: Machine, t: nat, kind: string, p: int)
    requires Safe(caps, m) && Stands(m, t) && m.threads[t] == Returning(kind, p) && HasRoom(caps, m.pools, kind)
    ensures Safe(caps, Moves(m, t, Resting, Put(m.pools, kind, IdleOf(m.pools, kind) + [p])))
  {
    var idle := IdleOf(m.pools, kind);
    PlacedAfterPut(m, t, Resting, kind, idle + [p]);
    CapsAfterPut(caps, m.pools, kind, idle + [p]);
    assert multiset(idle + [p]) == multiset(idle) + multiset{p};
    assert multiset(idle) + Held(m.threads[t]) == multiset(idle + [p]) + Held(Resting);
    PlacementKept(m, Moves(m, t, Resting, Put(m.pools, kind, idle + [p])),
                  multiset(idle) + Held(m.threads[t]), multiset(idle + [p]) + Held(Resting));
  }

  lemma KeepSafe(caps: map<string, int>, m: Machine, t: nat)
    requires Safe(caps, m) && Enabled(m, Keep(t))
    ensures Safe(caps, Do(caps, m, Keep(t)))
  {
    var Returning(kind, p) := m.threads[t];
    if HasRoom(caps, m.pools, kind) {
      RetainSafe(caps, m, t, kind, p);
    } else {
      MoveSafe(caps, m, t, Terminating(p), m.running);
    }
  }

  /** Steps outside the lock: the thread moves on, and what it gives up is dead. */
  lemma MoveSafe(caps: map<string, int>, m: Machine, t: nat, phase: Phase, running: set<int>)
    requires Safe(caps, m) && Stands(m, t) && running <= m.running
    requires forall p :: Held(phase)[p] <= Held(m.threads[t])[p]
    requires forall p :: p in running ==> Held(phase)[p] == Held(m.threads[t])[p]
    ensures Safe(caps, Moves(m, t, phase, m.pools).(running := running))
  {
    PlacedAfterMove(m, t, phase);
    PlacementKept(m, Moves(m, t, phase, m.pools).(running := running), Held(m.threads[t]), Held(phase));
  }

  lemma TailCounts(rest: seq<int>, p: int)
    requires rest != []
    ensures multiset(rest[1..])[p] + (if p == rest[0] then 1 else 0) == multiset(rest)[p]
  {
    assert rest == [rest[0]] + rest[1..];
  }

  lemma TerminateNextSafe(caps: map<string, int>, m: Machine, t: nat, rest: seq<int>)
    requires Safe(caps, m) && Stands(m, t) && m.threads[t] == ShuttingDown(rest) && rest != []
    ensures Safe(caps, Moves(m, t, ShuttingDown(rest[1..]), m.pools).(running := m.running - {rest[0]}))
  {
    var phase := ShuttingDown(rest[1..]);
    forall p ensures Held(phase)[p] <= Held(m.threads[t])[p]
             ensures p in m.running - {rest[0]} ==> Held(phase)[p] == Held(m.threads[t])[p]
    {
      TailCounts(rest, p);
    }
    MoveSafe(caps, m, t, phase, m.running - {rest[0]});
  }

  lemma TerminateSafe(caps: map<string, int>, m: Machine, t: nat)
    requires Safe(caps, m) && Enabled(m, Terminate(t))
    ensures Safe(caps, Do(caps, m, Terminate(t)))
  {
    match m.threads[t] {
      case Terminating(p) => MoveSafe(caps, m, t, Resting, m.running - {p});
      case ShuttingDown(rest) =>
        if rest == [] {
          MoveSafe(caps, m, t, Resting, m.running);
        } else {
          TerminateNextSafe(caps, m, t, rest);
        }
    }
  }

  lemma ShutdownPlaces(m: Machine, t: nat)
    requires Stands(m, t) && m.threads[t].Resting?
    ensures Placed(Moves(m, t, ShuttingDown(AllIdle(m.pools)), [])) == Placed(m)
  {
    var phase := ShuttingDown(AllIdle(m.pools));
    InFlightAfter(m.threads, t, phase);
    AllIdleIsIdle(m.pools);
    Swap(InFlight(m.threads[t := phase]), InFlight(m.threads), Idle(m.pools));
  }

  lemma Swap(a: multiset<int>, b: multiset<int>, c: multiset<int>)
    requires a + multiset{} == b + c
    ensures multiset{} + a == c + b
  {
    assert a + multiset{} == a && multiset{} + a == a;
    assert b + c == c + b;
  }

  lemma ShutdownSafe(caps: map<string, int>, m: Machine, t: nat)
    requires Safe(caps, m) && Enabled(m, Shutdown(t))
    ensures Safe(caps, Do(caps, m, Shutdown(t)))
  {
    ShutdownPlaces(m, t);
    forall kind ensures IdleOf([], kind) == [] {
    }
  }

  lemma DeathSafe(caps: map<string, int>, m: Machine, p: int)
    requires Safe(caps, m)
    ensures Safe(caps, m.(running := m.running - {p}))
  {
    var m' := m.(running := m.running - {p});
    assert Placed(m') == Placed(m);
  }

  lemma DropSafe(caps: map<string, int>, m: Machine, t: nat)
    requires Safe(caps, m) && Enabled(m, Drop(t))
    ensures Safe(caps, Do(caps, m, Drop(t)))
  {
    DropFindsNothing(m, t, m.threads[t].kind);
    MoveSafe(caps, m, t, Terminating(m.threads[t].process), m.running);
  }

  /** No step puts a process in two places, loses a running one, or overfills a pool. */
  lemma {:induction false} StepSafe(caps: map<string, int>, m: Machine, step: Step)
    requires Safe(caps, m) && Enabled(m, step)
    ensures Safe(caps, Do(caps, m, step))
  {
    match step {
      case Acquire(t, kind, answers) => AcquireSafe(caps, m, t, kind, answers);
      case Spawn(t) => SpawnSafe(caps, m, t);
      case SpawnFails(t) => MoveSafe(caps, m, t, Resting, m.running);
      case PollsAlive(t) => MoveSafe(caps, m, t, Returning(m.threads[t].kind, m.threads[t].process), m.running);
      case PollsDead(t) => MoveSafe(caps, m, t, Resting, m.running);
      case Keep(t) => KeepSafe(caps, m, t);
      case Drop(t) => DropSafe(caps, m, t);
      case Terminate(t) => TerminateSafe(caps, m, t);
      case Shutdown(t) => ShutdownSafe(caps, m, t);
      case Dies(p) => DeathSafe(caps, m, p);
    }
  }

  // ------------------------------------------------------------ main results

  lemma {:induction false} RunSafe(caps: map<string, int>, m: Machine, steps: seq<Step>)
    requires Safe(caps, m) && Possible(caps, m, steps)
    ensures Safe(caps, Run(caps, m, steps))
    decreases |steps|
  {
    if steps != [] {
      StepSafe(caps, m, steps[0]);
      RunSafe(caps, Do(caps, m, steps[0]), steps[1..]);
    }
  }

  lemma {:induction false} InitialSafe(caps: map<string, int>, threads: nat)
    ensures Safe(caps, Initial(threads))
  {
    NothingInFlight(Initial(threads).threads);
  }

  lemma {:induction false} NothingInFlight(threads: seq<Phase>)
    requires forall t :: 0 <= t < |threads| ==> threads[t].Resting?
    ensures InFlight(threads) == multiset{}
    decreases |threads|
  {
    if threads != [] {
      NothingInFlight(threads[1..]);
    }
  }

  ghost predicate Reachable(caps: map<string, int>, m: Machine) {
    exists threads, steps :: Possible(caps, Initial(threads), steps) && Run(caps, Initial(threads), steps) == m
  }

  lemma {:induction false} ReachableSafe(caps: map<string, int>, m: Machine)
    requires Reachable(caps, m)
    ensures Safe(caps, m)
  {
    var threads, steps :| Possible(caps, Initial(threads), steps) && Run(caps, Initial(threads), steps) == m;
    InitialSafe(caps, threads);
    RunSafe(caps, Initial(threads), steps);
  }

  /** A pool, or a thread that answers for processes. */
  datatype Place = InPool(kind: string) | WithThread(t: nat)

  function At(m: Machine, place: Place): multiset<int> {
    match place
    case InPool(kind) => multiset(IdleOf(m.pools, kind))
    case WithThread(t) => if Stands(m, t) then Held(m.threads[t]) else multiset{}
  }

  lemma {:induction false} TwoPools(pools: Pools, kind: string, other: string, p: int)
    requires kind != other
    ensures multiset(IdleOf(pools, kind))[p] + multiset(IdleOf(pools, other))[p] <= Idle(pools)[p]
    decreases |pools|
  {
    if pools != [] {
      if pools[0].0 == kind {
        IdleOfIsIdle(pools[1..], other, p);
      } else if pools[0].0 == other {
        IdleOfIsIdle(pools[1..], kind, p);
      } else {
        TwoPools(pools[1..], kind, other, p);
      }
    }
  }

  lemma TwoThreads(threads: seq<Phase>, t: nat, u: nat, p: int)
    requires t < |threads| && u < |threads| && t != u
    ensures Held(threads[t])[p] + Held(threads[u])[p] <= InFlight(threads)[p]
  {
    var others := threads[u := Resting];
    InFlightAfter(threads, u, Resting);
    HeldIsPlaced(others, t, p);
    assert (InFlight(others) + Held(threads[u]))[p] == (InFlight(threads) + Held(Resting))[p];
  }

  lemma TwoPlaces(m: Machine, a: Place, b: Place, p: int)
    requires a != b
    ensures At(m, a)[p] + At(m, b)[p] <= Placed(m)[p]
  {
    match (a, b) {
      case (InPool(kind), InPool(other)) => TwoPools(m.pools, kind, other, p);
      case (InPool(kind), WithThread(t)) =>
        IdleOfIsIdle(m.pools, kind, p);
        if Stands(m, t) { HeldIsPlaced(m.threads, t, p); }
      case (WithThread(t), InPool(kind)) =>
        IdleOfIsIdle(m.pools, kind, p);
        if Stands(m, t) { HeldIsPlaced(m.threads, t, p); }
      case (WithThread(t), WithThread(u)) =>
        if Stands(m, t) { HeldIsPlaced(m.threads, t, p); }
        if Stands(m, u) { HeldIsPlaced(m.threads, u, p); }
        if Stands(m, t) && Stands(m, u) {
          TwoThreads(m.threads, t, u, p);
        }
    }
  }

  /** In every reachable state no process is with two threads, in two pools, or with a thread and
      in a pool, and none is pooled twice. */
  lemma {:induction false} ProcessesAreInOnePlace(caps: map<string, int>, m: Machine, a: Place, b: Place, p: int)
    requires Reachable(caps, m) && p in At(m, a)
    ensures At(m, a)[p] == 1
    ensures p in At(m, b) ==> a == b
  {
    ReachableSafe(caps, m);
    TwoPlaces(m, a, if a.InPool? then WithThread(|m.threads|) else InPool(""), p);
    if a != b {
      TwoPlaces(m, a, b, p);
    }
  }

  /** In every reachable state the idle pools are within their positive caps. */
  lemma {:induction false} PoolsStayWithinCaps(caps: map<string, int>, m: Machine, kind: string)
    requires Reachable(caps, m) && Cap(caps, kind) > 0
    ensures |IdleOf(m.pools, kind)| <= Cap(caps, kind)
  {
    ReachableSafe(caps, m);
  }

  lemma {:induction false} IdleIsSomewhere(pools: Pools, p: int) returns (kind: string)
    requires DistinctKeys(pools) && p in Idle(pools)
    ensures p in IdleOf(pools, kind)
    decreases |pools|
  {
    if p in pools[0].1 {
      kind := pools[0].0;
    } else {
      kind := IdleIsSomewhere(pools[1..], p);
      if kind == pools[0].0 {
        NoSuchPool(pools[1..], kind);
      }
    }
  }

  lemma {:induction false} NoSuchPool(pools: Pools, kind: string)
    requires forall i :: 0 <= i < |pools| ==> pools[i].0 != kind
    ensures IdleOf(pools, kind) == []
    decreases |pools|
  {
    if pools != [] {
      NoSuchPool(pools[1..], kind);
    }
  }

  lemma {:induction false} HeldBySomeone(threads: seq<Phase>, p: int) returns (t: nat)
    requires p in InFlight(threads)
    ensures t < |threads| && p in Held(threads[t])
  {
    if p in Held(threads[0]) {
      t := 0;
    } else {
      t := HeldBySomeone(threads[1..], p);
      t := t + 1;
    }
  }

  /** In every reachable state a spawned process is idle in a pool, with a thread, or dead. */
  lemma {:induction false} NothingLeaks(caps: map<string, int>, m: Machine, p: int) returns (place: Place)
    requires Reachable(caps, m) && p in m.running
    ensures 0 <= p < m.spawned && p in At(m, place)
  {
    ReachableSafe(caps, m);
    assert Placed(m)[p] == Idle(m.pools)[p] + InFlight(m.threads)[p];
    if p in Idle(m.pools) {
      var kind := IdleIsSomewhere(m.pools, p);
      place := InPool(kind);
    } else {
      var t := HeldBySomeone(m.threads, p);
      place := WithThread(t);
    }
  }

  /** A shutdown nobody interrupts: empty the pools, then terminate one process after another. */
  function Drain(t: nat, processes: nat): seq<Step> {
    seq(processes + 1, _ => Terminate(t))
  }

  function ShutdownBy(m: Machine, t: nat): seq<Step> {
    [Shutdown(t)] + Drain(t, |AllIdle(m.pools)|)
  }

  lemma {:induction false} DrainTerminates(caps: map<string, int>, m: Machine, t: nat, rest: seq<int>)
    requires Stands(m, t) && m.threads[t] == ShuttingDown(rest)
    ensures Possible(caps, m, Drain(t, |rest|))
    ensures Run(caps, m, Drain(t, |rest|)) ==
      Moves(m, t, Resting, m.pools).(running := m.running - set p | p in rest)
    decreases |rest|
  {
    var steps := Drain(t, |rest|);
    var next := Do(caps, m, Terminate(t));
    if rest == [] {
      assert steps == [Terminate(t)] && steps[1..] == [];
      assert m.running - (set p | p in rest) == m.running;
    } else {
      assert steps[1..] == Drain(t, |rest[1..]|);
      DrainTerminates(caps, next, t, rest[1..]);
      assert next.threads[t := Resting] == m.threads[t := Resting];
      assert (set p | p in rest) == {rest[0]} + (set p | p in rest[1..]) by {
        assert rest == [rest[0]] + rest[1..];
      }
      assert next.running - (set p | p in rest[1..]) == m.running - (set p | p in rest);
    }
  }

  /** What an uninterrupted shutdown leaves running is what is in flight. */
  lemma {:induction false} ShutdownLeavesInFlight(caps: map<string, int>, m: Machine, t: nat)
    requires WellPlaced(m) && Stands(m, t) && m.threads[t].Resting?
    ensures Possible(caps, m, ShutdownBy(m, t))
    ensures
      var m' := Run(caps, m, ShutdownBy(m, t));
      && m'.pools == [] && m'.threads == m.threads
      && forall p :: p in m'.running <==> p in m.running && p in InFlight(m.threads)
  {
    var idle := AllIdle(m.pools);
    var next := Do(caps, m, Shutdown(t));
    assert ShutdownBy(m, t)[1..] == Drain(t, |idle|);
    DrainTerminates(caps, next, t, idle);
    assert next.threads[t := Resting] == m.threads;
    AllIdleIsIdle(m.pools);
    forall p | p in m.running ensures p in InFlight(m.threads) <==> p !in idle {
      assert Placed(m)[p] == Idle(m.pools)[p] + InFlight(m.threads)[p];
      assert p in idle <==> p in multiset(idle);
    }
  }

  // ------------------------------------------------------------ shutdowns among other steps

  /** A run that starts with a shutdown by thread `t`, with any steps of other threads and any deaths
      in between, and at whose end `t` is not shutting down. */
  ghost predicate CompletesShutdown(caps: map<string, int>, m: Machine, t: nat, steps: seq<Step>) {
    && steps != [] && steps[0] == Shutdown(t) && Possible(caps, m, steps)
    && var after := Run(caps, m, steps); Stands(after, t) && !after.threads[t].ShuttingDown?
  }

  ghost predicate RunsAfter(caps: map<string, int>, m: Machine, t: nat, steps: seq<Step>, p: int) {
    CompletesShutdown(caps, m, t, steps) && p in Run(caps, m, steps).running
  }

  /** A process the shutdown has taken runs only until its thread has come to it. */
  ghost predicate TakenDown(m: Machine, t: nat, p: int) {
    && Stands(m, t) && p < m.spawned
    && (p in m.running ==> m.threads[t].ShuttingDown? && p in m.threads[t].rest)
  }

  lemma {:induction false} StepTakesDown(caps: map<string, int>, m: Machine, t: nat, p: int, step: Step)
    requires TakenDown(m, t, p) && Enabled(m, step)
    ensures TakenDown(Do(caps, m, step), t, p)
  {
    if step == Terminate(t) && m.threads[t].ShuttingDown? && m.threads[t].rest != [] {
      var rest := m.threads[t].rest;
      assert rest == [rest[0]] + rest[1..];
    }
  }

  lemma {:induction false} RunTakesDown(caps: map<string, int>, m: Machine, t: nat, p: int, steps: seq<Step>)
    requires TakenDown(m, t, p) && Possible(caps, m, steps)
    ensures TakenDown(Run(caps, m, steps), t, p)
    decreases |steps|
  {
    if steps != [] {
      StepTakesDown(caps, m, t, p, steps[0]);
      RunTakesDown(caps, Do(caps, m, steps[0]), t, p, steps[1..]);
    }
  }

  /** What runs at the end ran at the beginning, or was spawned since. */
  lemma {:induction false} RunningBefore(caps: map<string, int>, m: Machine, steps: seq<Step>, p: int)
    requires Possible(caps, m, steps) && p in Run(caps, m, steps).running && p < m.spawned
    ensures p in m.running
    decreases |steps|
  {
    if steps != [] {
      RunningBefore(caps, Do(caps, m, steps[0]), steps[1..], p);
    }
  }

  /** However a shutdown is interleaved with other steps, what runs after it was in flight before it,
      or was spawned since. */
  lemma {:induction false} ShutdownSurvivors(caps: map<string, int>, m: Machine, t: nat, steps: seq<Step>, p: int)
    requires WellPlaced(m) && RunsAfter(caps, m, t, steps, p)
    ensures p >= m.spawned || (p in m.running && p in InFlight(m.threads) && p !in Idle(m.pools))
  {
    if p < m.spawned {
      RunningBefore(caps, m, steps, p);
      assert Placed(m)[p] == Idle(m.pools)[p] + InFlight(m.threads)[p];
      if p in Idle(m.pools) {
        AllIdleIsIdle(m.pools);
        assert p in multiset(AllIdle(m.pools));
        RunTakesDown(caps, Do(caps, m, Shutdown(t)), t, p, steps[1..]);
      }
    }
  }

  lemma UninterruptedCompletes(caps: map<string, int>, m: Machine, t: nat)
    requires WellPlaced(m) && Stands(m, t) && m.threads[t].Resting?
    ensures CompletesShutdown(caps, m, t, ShutdownBy(m, t))
  {
    ShutdownLeavesInFlight(caps, m, t);
  }

  /** Of the processes there were, those that can outlive a shutdown are exactly the running ones in
      flight. */
  lemma {:induction false} ShutdownSurvivorsExactly(caps: map<string, int>, m: Machine, t: nat, p: int)
    requires Reachable(caps, m) && Enabled(m, Shutdown(t)) && p < m.spawned
    ensures (exists steps :: RunsAfter(caps, m, t, steps, p)) <==> p in m.running && p in InFlight(m.threads)
  {
    ReachableSafe(caps, m);
    if steps :| RunsAfter(caps, m, t, steps, p) {
      ShutdownSurvivors(caps, m, t, steps, p);
    }
    if p in m.running && p in InFlight(m.threads) {
      ShutdownLeavesInFlight(caps, m, t);
      UninterruptedCompletes(caps, m, t);
      assert RunsAfter(caps, m, t, ShutdownBy(m, t), p);
    }
  }

  /** After a completed shutdown only processes spawned since run. */
  ghost predicate OnlyNewRun(caps: map<string, int>, m: Machine, t: nat) {
    forall steps, p :: RunsAfter(caps, m, t, steps, p) ==> p >= m.spawned
  }

  /** A shutdown ends every process there was, however it is interleaved with other steps, exactly
      when no running process is in flight as it starts. */
  lemma {:induction false} ShutdownIsTotalExactly(caps: map<string, int>, m: Machine, t: nat)
    requires Reachable(caps, m) && Enabled(m, Shutdown(t))
    ensures OnlyNewRun(caps, m, t) <==> forall p :: p in m.running ==> p !in InFlight(m.threads)
  {
    ReachableSafe(caps, m);
    if forall p :: p in m.running ==> p !in InFlight(m.threads) {
      forall steps, p | RunsAfter(caps, m, t, steps, p) ensures p >= m.spawned {
        ShutdownSurvivors(caps, m, t, steps, p);
      }
    } else {
      var p :| p in m.running && p in InFlight(m.threads);
      ShutdownSurvivorsExactly(caps, m, t, p);
      var steps :| RunsAfter(caps, m, t, steps, p);
      assert p in Placed(m);
    }
  }

  /** With every thread at rest nothing is in flight: whatever runs after a shutdown was spawned
      since, and an uninterrupted one leaves nothing running. */
  lemma {:induction false} ShutdownAtRest(caps: map<string, int>, m: Machine, t: nat)
    requires Reachable(caps, m) && Stands(m, t)
    requires forall u :: 0 <= u < |m.threads| ==> m.threads[u].Resting?
    ensures OnlyNewRun(caps, m, t)
    ensures Possible(caps, m, ShutdownBy(m, t))
    ensures Run(caps, m, ShutdownBy(m, t)).running == {}
  {
    ReachableSafe(caps, m);
    NothingInFlight(m.threads);
    ShutdownIsTotalExactly(caps, m, t);
    ShutdownLeavesInFlight(caps, m, t);
    forall p ensures p !in Run(caps, m, ShutdownBy(m, t)).running {
    }
  }

  /** A release in flight during a shutdown puts a running process back into the emptied pool. */
  lemma {:induction false} ReleaseOutlivesShutdown(caps: map<string, int>, m: Machine, t: nat, u: nat, kind: string, p: int)
    requires Safe(caps, m) && Stands(m, t) && m.threads[t].Resting?
    requires Stands(m, u) && m.threads[u] == Returning(kind, p) && p in m.running
    ensures Possible(caps, m, ShutdownBy(m, t))
    ensures
      var m' := Run(caps, m, ShutdownBy(m, t));
      && Enabled(m', Keep(u))
      && p in Do(caps, m', Keep(u)).running
      && IdleOf(Do(caps, m', Keep(u)).pools, kind) == [p]
  {
    ShutdownLeavesInFlight(caps, m, t);
    HeldIsPlaced(m.threads, u, p);
    var m' := Run(caps, m, ShutdownBy(m, t));
    assert IdleOf(m'.pools, kind) == [];
    assert HasRoom(caps, m'.pools, kind);
  }

  /** A thread that has polled its one process alive, and another at rest. */
  function Releasing(kind: string): Machine {
    Machine([(kind, [])], {0}, 1, [Returning(kind, 0), Resting])
  }

  /** Such a release in flight is reached: one of two threads acquires, spawns and polls. */
  lemma {:induction false} ReleaseIsReached(caps: map<string, int>, kind: string)
    ensures Reachable(caps, Releasing(kind))
    ensures Enabled(Releasing(kind), Shutdown(1)) && 0 in Releasing(kind).running
  {
    var answers := (p: int) => true;
    var steps := [Acquire(0, kind, answers), Spawn(0), PollsAlive(0)];
    var m0 := Initial(2);
    var m1 := Do(caps, m0, steps[0]);
    assert m1.threads == [Spawning(kind), Resting] && m1.pools == [(kind, [])];
    var m2 := Do(caps, m1, steps[1]);
    assert m2.threads == [Working(kind, 0), Resting] && m2.running == {0};
    var m3 := Do(caps, m2, steps[2]);
    assert m3.threads == [Returning(kind, 0), Resting];
    assert m3 == Releasing(kind);
    OneMore(caps, m2, steps[2], []);
    assert [steps[2]] + [] == steps[2..];
    OneMore(caps, m1, steps[1], steps[2..]);
    assert [steps[1]] + steps[2..] == steps[1..];
    OneMore(caps, m0, steps[0], steps[1..]);
    assert [steps[0]] + steps[1..] == steps;
    assert Possible(caps, Initial(2), steps) && Run(caps, Initial(2), steps) == Releasing(kind);
  }

  lemma OneMore(caps: map<string, int>, m: Machine, step: Step, rest: seq<Step>)
    requires Enabled(m, step) && Possible(caps, Do(caps, m, step), rest)
    ensures Possible(caps, m, [step] + rest)
    ensures Run(caps, m, [step] + rest) == Run(caps, Do(caps, m, step), rest)
  {
    assert ([step] + rest)[1..] == rest;
  }
}
