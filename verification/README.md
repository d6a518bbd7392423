# Coordination guarantees of MAK

MAK lets several coding agents work on one repository at once. This project models the parts of
it that carry its guarantees and proves those guarantees for all inputs, all runs and all
reachable states. One file, one module:

- **Cascade fix-up.** `Cascade` reattaches kernel postconditions to a reviewed repair plan by
  adding dependency edges. `CascadeLoop` is the bounded repair loop with stall and oscillation
  detection against a remembered history, and the aggregate verdict on a request. `Graph` and
  `Plan` hold reachability, acyclicity and task graphs.
- **Scheduling shapes.** `WaveLayering` is greedy layering into waves. `FileDependencies` builds
  the edges that serialise operations on shared files, and composes them with the layering.
  `ConflictAvoiding` assigns operations to agents by connected tables, on a mutable union-find
  with path halving. `Workload` holds the operations.
- **Agents.** `SourceMapping` maps returned node ids onto granted nodes, `ResultCodec` is the
  result codec with its normalising decoder, `ResultDecoding` what the decoder makes of every key
  of a message, present or absent, `ProcessPool` the pool of idle processes shared by concurrent
  threads. `NodeIds` holds the shape of node ids.
- **Leased jobs.** `JobLifecycle` is the state machine of a leased job over whole histories of
  calls, `JobPaging` the cursor walk over a tenant's jobs.
- **Algorithms.** `EditDistance`, `LinearFit`, `RegistrationTables`, `RegistrationTexts` and
  `RegistrationSurvival` (registry appends, their union, its whole text, and what is measured
  afterwards).
- **Key file.** `KeyFile` is its parse, merge and render, and `KeyFileExactly` says what each of
  them gives, in plain terms. `KeyFileText` and `KeyFileLines` say which lines a save leaves,
  `KeyFileLaws` what is stored afterwards, `KeyFileSurvival` which lines survive and where,
  `KeyFileSettling` when a second save changes nothing, and `KeyFileCommuting` when two saves
  commute.
- `Sequences`, `OrderedDicts`, `Options`, `Ordering` and `Text` hold what the others share.

Code that changes things step by step is a method proved against a specification function; the
lemmas are about that function. What an operation does is also said without it, in terms of the
inputs alone: `PlacedExactly`, `OutcomeExactly`, `FoldedExactly`, `DecodedExactly`, `PageExactly`,
`RecordExactly`, `SavedExactly`, `WavesExactly` and others below. Objects whose fields change are
classes: `UnionFind`, `Session`, `AgentRunner`. Python dictionaries whose order matters are `Dict`,
a sequence of pairs.

Exceptions and error returns are values (`None`, `Rejected`, `Complain`, `BadName`, ...). What the
repository obtains from outside is a parameter: the session's detections, fingerprints, reviews
and results are arbitrary functions of the number of detections made so far (`Environment`), the
recorded source order of a node is a function (`OrderKey`), and the answers of process polls are a
function (`answers`).

## Where a promise holds only under a condition

In each case the code is modelled as it is, and the exact condition is proved.

- `add_registration` is documented as idempotent (`benchmark/harness/workload.py:303`). It is, on
  every table, exactly for registrations on one line and for the stub itself; any other line is
  inserted again (`IdempotentExactly`).
- `save_keys` validates the stripped name but writes the name as given
  (`mak/endpoints/types.py:197-204`, `cli/core/api_keys.py:160-161`), and it strips values but lets
  line breaks inside them through (`cli/core/api_keys.py:173-181`). So a padded name or a broken
  value writes lines that are not those of the key:
  - Saved keys read back exactly when every key with a value has a plain name and no line break in
    its value (`ReadsBackExactly`).
  - Other lines survive every save (`OtherLinesSurvive`, `LinesStayInOrder`). They are all there is
    besides lines of saved names exactly when every line that is written has a saved name, appended
    blank ones aside (`OtherLinesExactly`), and they keep their positions exactly when every plain
    key has a value on one line (`LinesStayInPlaceExactly`).
  - A second identical save changes nothing, whatever the file, exactly when every line that is
    written besides the first of a plain name has a name that is saved without a value, and no
    padded key with a value comes before a plain one with a value (`SecondSaveChangesNothing`). When no
    key is removed, those are the keys that read back (`StorableSettles`). A padded name is appended
    again on every save (`PaddedNameIsAppendedEveryTime`).
  - Other names keep what they store, whatever the file, exactly when every line that is written and
    stores anything stores it under a saved name (`OtherNamesUndisturbed`). Saving `" FOO"` changes
    what `FOO` stores (`PaddedNameStoresUnderPlain`).
  - Two saves of disjoint names that keep to their names commute in what they store exactly when they
    agree: a line of one that renews a key of the other must not change which of that other's lines
    has the last word (`DisjointSavesCommute`). Keeping to one's names is not enough
    (`TwoSavesDoNotCommute`): saving `FOO` with a value whose second line is `BAZ=1`, and `BAZ`
    with `2`, does not commute with saving `BAR` with a value whose second line is `FOO=`. Keys that
    read back always commute (`StorableSavesCommute`).
- `map_returned_sources` is documented to concatenate fragments in the order they were returned
  (`mak/agent_runner/protocol.py:138-139`); the code sorts them, with the emission order as the
  last resort. The result is independent of the emission order exactly when no two returnable ids
  of one file tie in tier and known order (`OrderIndependentExactly`).
- `encode_task_result` and `decode_task_result` invert each other exactly on the results
  `Reproducible` describes: an error kind, for one, is not decoded (`RoundTripExactly`).
- Paging misses jobs exactly when a tenant's ids repeat or one is empty (`PagingCompleteExactly`).
- However a shutdown of the pool is interleaved with other threads and with deaths, the processes
  from before it that can still run once it is through are exactly the running ones in flight as it
  starts (`ShutdownSurvivorsExactly`); it ends all of them exactly when there are none
  (`ShutdownIsTotalExactly`). Others may be spawned meanwhile; a shutdown that nothing interrupts
  leaves nothing but what was in flight (`ShutdownLeavesInFlight`). A release in flight re-pools its
  process (`ReleaseOutlivesShutdown`, `ReleaseIsReached`).
- `limit_reached` is documented as "exhausted while defects were still being produced"
  (`mak/cascade.py:55-56`). It is set exactly when all `max_waves` waves ran. It is set with nothing
  left broken exactly when all of them ran and the detection after the last came up empty, and the
  outcome is not clean even then (`LimitReachedExactly`).
- The last wave of a layering is no wave at all exactly when some task reaches a cycle or an
  unknown id (`LeftoversExactly`).

## Model

| member | source | states |
|---|---|---|
| `Cascade.DependsTransitively` | mak/cascade.py:134-148 | The worklist search ends on every task table, cyclic or with unknown ids, and answers true exactly when `wanted` is reachable from `start` by at least one dependency edge through known tasks. |
| `Cascade.AnotherDependsOn` | mak/cascade.py:192-197 | The inner search over candidates: true exactly when some other candidate reaches this one. |
| `Cascade.PlaceObligation` | mak/cascade.py:167-220 | One round of the rewrite, with its two loops, is the placement that `PlacedExactly` describes without it. |
| `Cascade.PlacedExactly` | mak/cascade.py:167-220 | On every plan: an obligation cannot be placed exactly when every writer of its caller or provider file, if there is one, is reached by another; otherwise the last writer that no other reaches carries it, depends on every other writer in plan order behind its own dependencies, and every other task is unchanged. |
| `Cascade.PreserveObligations` | mak/cascade.py:162-221 | The whole loop is the fold of those placements over the detected obligations in order, stopping with none at the first that cannot be placed. |
| `Cascade.ObligationsInOrder` | mak/cascade.py:162-166 | The obligations are those of the detected tasks, task by task, each once, by first occurrence. |
| `Cascade.PreserveExactly` | mak/cascade.py:162-221 | The rewrite places the obligations one after the other, each as `PlacedExactly` describes, and fails exactly when it comes to one that cannot be placed. |
| `Cascade.SinksNonempty` | mak/cascade.py:187-201 | In an acyclic plan the sink search never comes up empty when there are candidates, so the second `return None` is never taken. |
| `Cascade.PreserveFailsExactly` | mak/cascade.py:184-201 | On an acyclic plan with distinct ids the rewrite returns none exactly when some obligation has no task writing its caller or its provider file. |
| `Cascade.PlaceKeepsAcyclic` | mak/cascade.py:187-188 | Making a sink depend on all other candidates cannot close a cycle. |
| `Cascade.PreserveKeepsAcyclic` | mak/cascade.py:151-221 | After all obligations the plan is acyclic, has the same ids, and differs from the approved one only by more dependencies and obligations. |
| `Cascade.PreserveDischarges` | mak/cascade.py:154-161 | In the final plan every detected obligation sits on a task that writes its caller or provider file and depends on every other such writer. |
| `Cascade.DischargedStable` | mak/cascade.py:166-220 | No later round undoes an obligation that is in place. |
| `Cascade.PreserveIdempotent` | mak/cascade.py:207-220 | Running the rewrite again on its own output, with the same detected tasks, changes nothing. |
| `Cascade.PreserveAddsOnlyCoWriters` | mak/cascade.py:203-214 | Every dependency that is added runs between two writers of one detected obligation: nothing else is serialised. |
| `Cascade.PreserveAddsOnlyDetected` | mak/cascade.py:215-219 | Every obligation that is added is a detected one, on one of its writers. |
| `CascadeLoop.Session.RememberState` | mak/cascade.py:121-131 | The session's side of remembering a state: a durable session appends it to its history unless it is already there, others keep none. |
| `CascadeLoop.RunRound` | mak/cascade.py:255-303 | One iteration with every branch: confirmation, a state met before, a refusal, a plan that discharges nothing, or a repair that is remembered, installed and run. |
| `CascadeLoop.RunCascadeWaves` | mak/cascade.py:247-315 | The loop with its flags produces the outcome, installed plans, history and number of detections of the specified run, for every session and every `max_waves`; `OutcomeExactly` and `WavesAreRepairs` say what they are. |
| `CascadeLoop.OutcomeExactly` | mak/cascade.py:255-315 | Each flag of the reported outcome and its stop reason, if and only if: all waves of the budget ran; the round it ended in found the latest state again (stalled), an older one (oscillating), a new one that was refused (declined), or a new one whose reviewed plan cannot discharge it (unrepairable). The unresolved ids are those of that round's batch, or of the confirming detection's, in order. |
| `CascadeLoop.WavesAreRepairs` | mak/cascade.py:262-303 | Wave after wave, what ran is the reviewed plan of its round, installed for a batch whose state had not been met before. |
| `CascadeLoop.RoundExactly` | mak/cascade.py:255-299 | What a round meets is what is detected, its fingerprint, and the reviewed plan with the obligations put back; it is accepted exactly when there is one and it is not empty. |
| `CascadeLoop.RunNeverRepeats` | mak/cascade.py:266-280 | No fingerprint is repaired twice nor one the loaded history holds; repairs, installed plans and waves are equally many and at most the ceiling. |
| `CascadeLoop.RestartsNeverRepeat` | mak/cascade.py:253-302 | Across any chain of runs that reload the remembered history, no fingerprint is repaired twice. |
| `CascadeLoop.RestartsBounded` | mak/cascade.py:253-302 | With finitely many fingerprints, all restarts together run at most as many waves as there are fingerprints outside the initial history. |
| `CascadeLoop.CleanExactly` | mak/cascade.py:75-86 | `clean` holds exactly when, below the ceiling, the detection after the last wave and the one confirming it found nothing and every wave was ok. |
| `CascadeLoop.LimitReachedExactly` | mak/cascade.py:55-56 | The limit is reported exactly when all waves of the budget ran, with nothing unresolved exactly when the detection after them came up empty; the outcome is not clean either way. |
| `CascadeLoop.StopsConfirmedExactly` | mak/cascade.py:257-261 | The loop ends with the confirmation pass exactly when the detection after its last wave found nothing below the ceiling, and what it reports is what that pass found. |
| `CascadeLoop.StopEvidence` | mak/cascade.py:257-306 | Each flag says exactly what was the case in the round the loop ended in: ceiling reached, nothing detected, the latest or an older repaired state met again, batch refused, or plan unable to discharge it; and the unresolved batch is that round's, or the confirming detection's. |
| `CascadeLoop.HopelessExactly` | mak/cascade.py:289-298 | When reviewed plans are acyclic with distinct ids, a wave is unrepairable exactly when the reviewed plan is empty or some detected obligation has no task writing its caller or provider file. |
| `CascadeLoop.InstalledPlansDischarge` | mak/cascade.py:289-303 | When reviewed plans are acyclic with distinct ids, every plan the loop installs is nonempty, acyclic, and has all obligations of its round in place. |
| `CascadeLoop.FailedMembers` | mak/execution_result.py:70-85 | `failed` holds exactly the failed ids of every wave, tagged with the wave. |
| `CascadeLoop.FailedInOrder` | mak/execution_result.py:70-85 | `failed` goes wave by wave and lists the failed ids of a wave as the wave does. |
| `CascadeLoop.FailureIsNeverCleared` | mak/execution_result.py:82-85 | A failure in any wave is reported whatever ran later, and keeps `request_satisfied` false. |
| `CascadeLoop.SatisfiedExactly` | mak/execution_result.py:136-144 | The request is satisfied exactly when the initial wave was ok and the loop ended clean. |
| `Graph.AddingEdgesKeepsAcyclic` | mak/cascade.py:187-188 | Adding edges from a node to nodes that do not reach it keeps a graph acyclic. |
| `Graph.SinkExists` | mak/cascade.py:187-201 | Every nonempty set of nodes of an acyclic graph has a member no other member reaches. |
| `WaveLayering.ComputeWaves` | cli/ui.py:156-168 | The loop ends on every plan and yields the specified layers, the leftovers as one last wave. |
| `WaveLayering.WavesExactly` | cli/ui.py:156-168 | Each wave is exactly the tasks that have not run and whose dependencies are ids of earlier waves, in the order of the plan; if there is none, the last wave is everything that has not run; and nothing is missing. |
| `WaveLayering.WavesPartition` | cli/ui.py:156-168 | The waves together hold exactly the tasks of the plan, each as often as the plan does. |
| `WaveLayering.WavesDisjoint` | cli/ui.py:156-168 | With distinct ids, an id completed in one wave is in no other and not left over. |
| `WaveLayering.WaveIsTight` | cli/ui.py:161-167 | All dependencies of a task lie in earlier waves, and one of them in the wave just before: the wave index is one more than the maximum over its dependencies. |
| `WaveLayering.WaveIsLongestChain` | cli/ui.py:160-168 | The wave index is the length of the task's longest dependency chain. |
| `WaveLayering.WavesAreMinimal` | cli/ui.py:160-168 | No schedule that respects the dependencies runs a task in an earlier slot than its wave. |
| `WaveLayering.LeftoversExactly` | cli/ui.py:162-164 | The last wave holds leftovers exactly for the tasks that reach a cycle or an unknown id. |
| `WaveLayering.NoLeftovers` | cli/ui.py:162-164 | On an acyclic plan without unknown ids nothing is left over. |
| `FileDependencies.FileDependenciesOf` | benchmark/harness/mak_runner.py:306-326 | The loop over the two dictionaries gives every operation name the latest earlier users of its files, the last of several namesakes winning. |
| `FileDependencies.DependenciesExactly` | benchmark/harness/mak_runner.py:316-323 | An operation waits, file by file in sorted order, for the latest earlier operation that edits the file, each once. |
| `FileDependencies.ResourcesExactly` | benchmark/harness/mak_runner.py:311-315 | Its files are its module's and those of the tables it registers in, each once, in ascending order. |
| `FileDependencies.RunDependsExactly` | benchmark/harness/mak_runner.py:218-220 | A task waits for what its operation declares, in order, and behind that for the file dependencies that are not declared. |
| `FileDependencies.Claim` | benchmark/harness/mak_runner.py:324-325 | Recording an operation as the latest user of its files changes those entries and no other. |
| `FileDependencies.LatestUser` | benchmark/harness/mak_runner.py:308-325 | `previous` names the latest user of every file used so far, and no other file. |
| `FileDependencies.EdgesGoBack` | benchmark/harness/mak_runner.py:316-323 | Every edge goes to an earlier operation that edits one of the same files. |
| `FileDependencies.SharersAreOrdered` | benchmark/harness/mak_runner.py:306-326 | With distinct names, two operations that share a file are joined by a dependency path from the later to the earlier. |
| `FileDependencies.RunLayers` | benchmark/harness/mak_runner.py:200-223 | When operations depend on earlier ones only, the merged plan of a run is acyclic and complete, and layering it leaves nothing over. |
| `FileDependencies.RunWavesNeverShareFiles` | benchmark/harness/mak_runner.py:200-223 | Dependency building followed by layering: no wave shown for the run holds two operations that share a file. |
| `ConflictAvoiding.UnionFind.Find` | benchmark/harness/synthetic_spec.py:169-173 | Find ends, returns the root of its table, and path halving changes no root: the forest invariant is kept. |
| `ConflictAvoiding.UnionFind.Union` | benchmark/harness/synthetic_spec.py:175-179 | Union makes two trees one, keeping the left root, and changes no other root. |
| `ConflictAvoiding.HalvingKeepsForest` | benchmark/harness/synthetic_spec.py:170-172 | Pointing a node at its grandparent keeps every node's root and a height that decreases along parents. |
| `ConflictAvoiding.UniteTables` | benchmark/harness/synthetic_spec.py:181-184 | The inner loop unites the tables of one operation; roots stay equal only for connected tables, and an unknown table is reported. |
| `ConflictAvoiding.AssignOwners` | benchmark/harness/synthetic_spec.py:185-197 | The second loop gives every component the agent it first drew, in rotation, and operations without tables their index in rotation. |
| `ConflictAvoiding.AssignOperations` | benchmark/harness/synthetic_spec.py:152-197 | The whole branch: rejected exactly without agents, a key error exactly when some operation registers in a table that is not shared, and otherwise: an operation without tables has the agent of its index, one related through shared tables to an earlier one has that one's agent, and any other has the agent whose turn it is among such. |
| `ConflictAvoiding.RelatedExactly` | benchmark/harness/synthetic_spec.py:181-197 | Operations are related through operations that share tables exactly when their tables are connected. |
| `ConflictAvoiding.NoTableHasTwoAgents` | benchmark/harness/synthetic_spec.py:166-197 | No table is edited by two agents. |
| `ConflictAvoiding.AssignmentDetermined` | benchmark/harness/synthetic_spec.py:185-197 | The component specification leaves no choice: two assignments that meet it are equal. |
| `ConflictAvoiding.ComponentsBalanced` | benchmark/harness/synthetic_spec.py:193-195 | The numbers of components two agents own differ by at most one. |
| `EditDistance.NextRow` | benchmark/harness/template2_spec.py:98-103 | The inner loop computes one row of the distance table from the row before. |
| `EditDistance.Levenshtein` | benchmark/harness/template2_spec.py:96-104 | The rolling-row loop returns the specified distance. |
| `EditDistance.DistanceIsLeast` | benchmark/harness/template2_spec.py:95-104 | The result is the minimum number of single-character insertions, deletions and substitutions over all edit scripts: some script attains it and none is shorter. |
| `EditDistance.Symmetric` | benchmark/harness/template2_spec.py:95-104 | The distance is symmetric. |
| `EditDistance.TriangleInequality` | benchmark/harness/template2_spec.py:95-104 | The distance satisfies the triangle inequality. |
| `EditDistance.ZeroExactly` | benchmark/harness/template2_spec.py:95-104 | The distance is zero exactly for equal strings. |
| `LinearFit.NormalEquations` | benchmark/sim/fit.py:68-77 | The gaps of the fitted line sum to zero and are orthogonal to x, in the constant-x fallback too. |
| `LinearFit.FitIsLeast` | benchmark/sim/fit.py:64-83 | Over the reals no line whatever has a smaller residual sum of squares, including in the constant-x fallback. |
| `LinearFit.FitIsUnique` | benchmark/sim/fit.py:64-83 | When x takes two values, the fitted line is the only one with the least residual. |
| `LinearFit.ConstantXIsLevel` | benchmark/sim/fit.py:71-77 | When x is constant, the line is level and runs through the mean of y. |
| `LinearFit.DeterminationInRange` | benchmark/sim/fit.py:78-83 | r2 lies in [0, 1] and is 1 exactly when the line runs through every point. |
| `LinearFit.DeterminationExactly` | benchmark/sim/fit.py:64-83 | Samples are rejected exactly when there are none or their numbers differ; r2 times the residual of the level line through the mean is what the fitted line takes away from it, and r2 is 1 when there is nothing to take away. |
| `JobLifecycle.HistoryKept` | benchmark/harness/template4_spec.py:231-504 | After every history of calls from `create_job` the record is, in every field, what the log of effects alone amounts to; a queued job is never due before its last update and a lease outlasts it. |
| `JobLifecycle.RecordExactly` | benchmark/harness/template4_spec.py:231-504 | A job is created exactly for a nonempty id and tenant from time zero on. After any history, state, attempts, due time, owner, lease end and last update are what has happened: the claims since the last replay, the last entry that rescheduled the job, and the latest claim with its renewals, if nothing has ended it. |
| `JobLifecycle.NotedExactly` | benchmark/harness/template4_spec.py:350-504 | Every accepted call happens as what it was and a rejected call does not; only a requeue without an expired lease, and cancelling a cancelled job, are accepted and do nothing. |
| `JobLifecycle.UpdatedNeverDecreases` | benchmark/harness/template4_spec.py:350-504 | In any sequence of calls `updated` never decreases, although `claim` and `requeue_expired` never compare against it. |
| `JobLifecycle.LeaseExactly` | benchmark/harness/template4_spec.py:376-453 | `heartbeat`, `complete` and `fail` succeed exactly for the worker of the latest claim with no requeue, failure, cancel or completion since, within the lease and not in the past (and with valid policy arguments). |
| `JobLifecycle.GuardsExactly` | benchmark/harness/template4_spec.py:350-504 | In any history, `claim`, `requeue_expired`, `cancel` and `replay` take effect exactly when the log allows: a due job that is waiting, a lease that has run out, and the job's own tenant on a job that has not ended, or has failed for good. |
| `JobLifecycle.AttemptsExactly` | benchmark/harness/template4_spec.py:350-504 | `attempts` is the number of claims since creation or the latest replay. |
| `JobLifecycle.FinalIsFinal` | benchmark/harness/template4_spec.py:426-504 | Succeeded and cancelled jobs never change again. |
| `JobLifecycle.RetryDelayIsCapped` | benchmark/harness/template4_spec.py:265-276 | Exactly the invalid policies are rejected, and the early exit by bit length changes nothing: the delay is the minimum of the cap and base times a power of two. |
| `JobLifecycle.RetryDelayDoubles` | benchmark/harness/template4_spec.py:265-276 | The delay is the base at first and doubles from attempt to attempt until it meets the cap. |
| `JobPaging.PageExactly` | benchmark/harness/template4_spec.py:505-514 | A page is refused exactly when the limit is outside 1..100. Otherwise its length is the minimum of the limit and the number of the tenant's jobs above the cursor; it is sorted, no job that is left out has a smaller id than one on it, and jobs with one id keep their stored order. |
| `JobPaging.NextListing` | benchmark/harness/template4_spec.py:505-514 | For distinct ids, the listing above the id of any listed job is what is listed behind it, so the last id of a page is a cursor to the rest. |
| `JobPaging.PagingIsComplete` | benchmark/harness/template4_spec.py:505-514 | For distinct nonempty ids, following pages from the empty cursor with any limits in 1..100 ends, visits every job of the tenant once, and in id order. |
| `JobPaging.PagingCompleteExactly` | benchmark/harness/template4_spec.py:505-514 | Paging is complete exactly when the ids of the tenant's jobs are distinct and nonempty. |
| `Ordering.LessExactly` | benchmark/harness/template4_spec.py:511-513 | Ids are compared by the first place where they differ: the smaller one has ended there or has the smaller character. |
| `Ordering.SortStable` | benchmark/harness/template4_spec.py:511-513 | Sorting keeps the order of elements that compare equal. |
| `ResultCodec.AsFragmentList` | mak/agent_runner/protocol.py:278-317 | The array walk, the lone object and the string case give the specified fragment list or complaint. |
| `ResultCodec.RecordAllFragments` | mak/agent_runner/protocol.py:425-426 | The loop over fragments records them in order or stops at the first bad one. |
| `ResultCodec.CollectNodes` | mak/agent_runner/protocol.py:407-435 | The three collecting loops, with their order of complaints, give the specified ids and sources. |
| `ResultCodec.CollectNormal` | mak/agent_runner/protocol.py:407-435 | Whatever is collected has duplicate-free ids that cover the sources. |
| `ResultDecoding.CollectedExactly` | mak/agent_runner/protocol.py:398-435 | Ids and sources are collected exactly when the three keys have their shapes; the ids come in the order in which they are first mentioned, ids before fragments before sources, and of several sources for an id the last one wins. |
| `ResultDecoding.ComplaintExactly` | mak/agent_runner/protocol.py:278-435 | Each complaint about ids, fragments and sources, if and only if it is the first that applies: the ids are no array, the fragments no list, the first of them that is no object, the first without an id or with a source that is no string, the sources no mapping, the first source that is no string. |
| `ResultDecoding.DecodedExactly` | mak/agent_runner/protocol.py:366-455 | A message is accepted exactly when its version is absent, null or this one, task id and success are there, and ids, fragments and sources have their shapes. Every field of the result is what its key says, or the default of an absent key: an absent `retryable` reads as true, an absent `no_changes_required` as false, an absent error or stop reason as null, and usage and repairs as nothing. |
| `ResultDecoding.RefusedExactly` | mak/agent_runner/protocol.py:384-442 | Why a message is refused, in order: no JSON, no object, another version, the first fault of its ids, fragments and sources, then a missing task id, then a missing success; all but the first three keep the stop reason and the usage of the message. |
| `ResultDecoding.EncodedExactly` | mak/agent_runner/protocol.py:215-219 | Encoding states the protocol version, sends no fragments, and loses nothing: results that are encoded alike are equal, error kinds included. |
| `ResultCodec.RoundTripExactly` | mak/agent_runner/protocol.py:215-219 | Encoding and decoding is the identity exactly on results whose ids are duplicate-free and cover the sources, with no error kind and a nonnegative repair count. |
| `ResultCodec.DecodeNormalises` | mak/agent_runner/protocol.py:366-455 | For every accepted message, decoding the encoding of the result gives the same result again. |
| `ResultCodec.FragmentShapesAlike` | mak/agent_runner/protocol.py:281-292 | A lone fragment object, a one-element array and that array encoded in a string decode alike. |
| `ResultCodec.FragmentsAreSources` | mak/agent_runner/protocol.py:369-377 | Sources sent as fragments and sources sent as a mapping decode alike. |
| `SourceMapping.MapReturnedSources` | mak/agent_runner/protocol.py:118-169 | Both loops over the dictionaries. An id is dropped exactly when it is returned, not granted, and the text before its first `::` is not granted; an id is accepted exactly when it is granted and is returned itself or has a returned id that is not granted living in it. |
| `SourceMapping.AcceptedExactly` | mak/agent_runner/protocol.py:145-169 | The same of the accepted source of an id: which ids have one, and that its own returned source wins. |
| `SourceMapping.DroppedExactly` | mak/agent_runner/protocol.py:149-161 | Exactly the returned ids are dropped that were not granted and live in no granted file. |
| `SourceMapping.DroppedInOrder` | mak/agent_runner/protocol.py:149-161 | They are reported in the order in which they were returned. |
| `SourceMapping.FragmentIsKept` | mak/agent_runner/protocol.py:127-135 | A returned id that was not granted, in a granted file: the file is accepted, and unless it was itself returned its text contains the id's source without line feeds around it. |
| `SourceMapping.FoldedExactly` | mak/agent_runner/protocol.py:96-169 | The whole text of a folded file: the sources of exactly the returned ids that live in it, each once, headers first, then by known order, then the others, ties as returned, joined by blank lines and ended by a line feed. |
| `NodeIds.FilePathIs` | mak/agent_runner/protocol.py:153-154 | An id lives in exactly one file: itself, without `::`, or the text before its first `::`. |
| `NodeIds.IsHeaderIs` | mak/agent_runner/protocol.py:90-93 | A module header is `file::module_header`, with or without a further component. |
| `SourceMapping.FoldIn` | mak/agent_runner/protocol.py:162-168 | The second loop adds every folded file that was not also returned as a whole, and changes nothing else. |
| `SourceMapping.EveryIdHasOneFate` | mak/agent_runner/protocol.py:127-144 | Every returned id is in exactly one class, and its source is kept as itself, contained in its file, overridden by an explicit whole file, or its id reported as dropped. |
| `SourceMapping.AcceptedAreGranted` | mak/agent_runner/protocol.py:145-169 | Only granted ids are accepted. |
| `SourceMapping.HeaderLeads` | mak/agent_runner/protocol.py:105-110 | The module header emitted first leads the folded file, whatever was emitted before it. |
| `SourceMapping.FragmentsInOrder` | mak/agent_runner/protocol.py:99-115 | In a folded file headers come first, then fragments with a known order in that order, then the others; fragments that tie come as they were emitted. |
| `SourceMapping.TiesMatter` | mak/agent_runner/protocol.py:111-115 | Two tied fragments in either order give two different files. |
| `SourceMapping.OrderIndependentExactly` | mak/agent_runner/protocol.py:96-115 | What is accepted is independent of the emission order exactly when no two ids that may be returned tie in tier and known order inside one file. |
| `ProcessPool.AgentRunner.TakeIdle` | mak/agent_runner/runner.py:219-224 | The locked loop of acquiring takes the process pooled last among those that answer the poll, gives up exactly those pooled after it, and leaves other pools alone. |
| `ProcessPool.AgentRunner.Retain` | mak/agent_runner/runner.py:233-241 | The locked part of releasing keeps a process exactly when its kind has no positive cap or fewer idle processes than that; it goes to the end of its pool, and other pools stay. |
| `ProcessPool.AgentRunner.Forget` | mak/agent_runner/runner.py:246-249 | The locked part of dropping takes the first occurrence of the process out of its pool, if it is there, and changes nothing else. |
| `ProcessPool.AgentRunner.TakeAll` | mak/agent_runner/runner.py:322-324 | The locked part of shutting down takes all pools, one after the other, and leaves none. |
| `ProcessPool.TakeLiveTakesLast` | mak/agent_runner/runner.py:219-224 | Acquiring reuses the process pooled last among those that answer, and gives up exactly those pooled after it. |
| `ProcessPool.AcquireExactly` | mak/agent_runner/runner.py:216-225 | As a step of a thread: it works with the process that is taken, or goes on to spawn when none answers; other pools, other threads and what runs stay. |
| `ProcessPool.KeepExactly` | mak/agent_runner/runner.py:232-242 | A returned process goes to the end of its pool when there is place, and is to be terminated otherwise; nothing else changes. |
| `ProcessPool.DropExactly` | mak/agent_runner/runner.py:244-250 | A dropped process is taken out of its pool and is to be terminated; nothing else changes. |
| `ProcessPool.LastReturnedIsReused` | mak/agent_runner/runner.py:216-241 | What one thread returns, the next one to acquire takes, if it answers, and the pools are as they were before. |
| `ProcessPool.DropFindsNothing` | mak/agent_runner/runner.py:244-250 | In every safe state the process a thread drops is in no pool, so the removal never applies. |
| `ProcessPool.StepSafe` | mak/agent_runner/runner.py:163-250 | No step of any thread, and no death, puts a process in two places, loses a running one, or overfills a pool. |
| `ProcessPool.ReachableSafe` | mak/agent_runner/runner.py:163-250 | That invariant holds after any interleaving of steps of any number of threads. |
| `ProcessPool.ProcessesAreInOnePlace` | mak/agent_runner/runner.py:163-250 | In every reachable state no process is with two threads, in two pools, or with a thread and in a pool, and none is pooled twice. |
| `ProcessPool.PoolsStayWithinCaps` | mak/agent_runner/runner.py:82-86 | In every reachable state each idle pool is within its positive cap. |
| `ProcessPool.NothingLeaks` | mak/agent_runner/runner.py:163-250 | In every reachable state a running process is spawned, and is idle in a pool or with a thread. |
| `ProcessPool.ShutdownLeavesInFlight` | mak/agent_runner/runner.py:320-327 | A shutdown that no other step interrupts empties the pools and leaves running exactly the running processes that were in flight. |
| `ProcessPool.ShutdownSurvivors` | mak/agent_runner/runner.py:320-327 | Whatever other threads do and whichever processes die meanwhile, what still runs once the shutdown is through was running in flight as it started, and pooled nowhere, or was spawned since. |
| `ProcessPool.ShutdownSurvivorsExactly` | mak/agent_runner/runner.py:320-327 | In every reachable state, a process from before the shutdown still runs after some completed one exactly when it was running in flight as it started. |
| `ProcessPool.ShutdownIsTotalExactly` | mak/agent_runner/runner.py:320-327 | Under every interleaving a completed shutdown ends all processes there were, exactly when no running process is in flight as it starts. |
| `ProcessPool.ShutdownAtRest` | mak/agent_runner/runner.py:320-327 | With all threads at rest as it starts, only processes spawned meanwhile run after a shutdown, and none when nothing interrupts it. |
| `ProcessPool.ReleaseOutlivesShutdown` | mak/agent_runner/runner.py:227-241 | A release in flight during a shutdown puts a running process back into the emptied pool. |
| `ProcessPool.ReleaseIsReached` | mak/agent_runner/runner.py:227-241 | The state in which a release outlives a shutdown is reachable: one of two threads acquires, spawns and polls. |
| `RegistrationTables.AddRegistration` | benchmark/harness/workload.py:318-341 | A registration that is there leaves the table as it is. Any other, indented by four spaces, replaces the first stub; without a stub it comes after the last `register(` line, without one before the last `return `, and without that at the end. With one on one line, every existing registration stays, in order. |
| `RegistrationTables.AddingInsertsOneLine` | benchmark/harness/workload.py:305-312 | A new registration changes one place: it replaces the stub or is put between two lines, and nothing else about the table changes. |
| `RegistrationTables.AddingKeepsRegistrations` | benchmark/harness/workload.py:318-341 | Every existing registration stays, in order, and exactly the new one is there besides. |
| `RegistrationTables.IdempotentExactly` | benchmark/harness/workload.py:302-303 | Adding is idempotent on every table exactly for registrations on one line, and for the stub itself. |
| `RegistrationTables.AddAllCounts` | benchmark/harness/workload.py:318-341 | After any number of registrations each is in the table exactly once, and those that were there before as often as before. |
| `RegistrationTables.OrderOfAddingIsIrrelevant` | benchmark/harness/workload.py:313-316 | Adding registrations in any order gives the same registrations and the same lines of every kind, stubs and others included, as multisets. |
| `RegistrationTables.ReturnStaysLast` | benchmark/harness/workload.py:331-341 | A registration is never put after the final `return` of a table. |
| `RegistrationTables.UnionRegistry` | benchmark/harness/agents.py:85-94 | The nested loops over versions and lines give the specified union. |
| `RegistrationTexts.UnionExactly` | benchmark/harness/agents.py:85-94 | The whole text of a merged table, line for line: of the local table exactly when some version declares it, with the registrations of all versions by first occurrence before its `return`, and otherwise of the plain function with them at its end. |
| `RegistrationTables.UnionIsExact` | benchmark/harness/agents.py:86-94 | The union holds each registration of any version exactly once, in the order in which they are first met, whichever empty table it starts from. |
| `RegistrationTables.UnionStillReturns` | benchmark/harness/agents.py:87-93 | A merged local table still ends with its `return`, after all registrations. |
| `RegistrationSurvival.MeasureRegistrationSurvival` | benchmark/harness/metrics.py:35-50 | The counting loop gives the specified measure. |
| `RegistrationSurvival.MeasureExactly` | benchmark/harness/metrics.py:35-50 | The survivors are the expected lines that are in their tables, the dropped the others, and survivors and duplicates together are as many as the lines of the tables that are expected. |
| `RegistrationSurvival.MeasureIgnoresOrder` | benchmark/harness/metrics.py:29-42 | The measure does not depend on the order in which the set of expected lines is met. |
| `RegistrationSurvival.SurvivalExactly` | benchmark/harness/metrics.py:38-50 | Nothing is reported dropped exactly when every expected line is in its table, and no duplicates exactly when none is there twice. |
| `RegistrationSurvival.RunSurvives` | benchmark/harness/metrics.py:25-50 | After the registrations of all operations are added in any order, the measure reports nothing dropped and no duplicates. |
| `RegistrationSurvival.UnionSurvives` | benchmark/harness/agents.py:85-94 | After tables are merged by union, the measure reports nothing dropped and no duplicates for every line some version registers. |
| `KeyFile.ParseEnvFile` | cli/core/api_keys.py:86-102 | The parsing loop gives every line of the text, as `LineExactly` and `SplitExactly` describe them, in order. |
| `KeyFileExactly.LineExactly` | cli/core/api_keys.py:95-101 | A blank line, a comment and a line without `=` assign nothing; any other line assigns what is behind its first `=` to the name before it, both without the space around them. |
| `KeyFileExactly.SplitExactly` | cli/core/api_keys.py:95 | The lines of a text and the breaks behind them make the text; no line holds a break, only the last may lack one, and a carriage return is not torn from its line feed. |
| `KeyFile.LoadAllStored` | cli/core/api_keys.py:132-142 | The dictionary holds exactly the names that are stored, each with its last nonempty value. |
| `KeyFileExactly.SpacesExactly` | cli/core/api_keys.py:96-101 | The characters that are stripped are those of Python's `str.isspace`, one by one. |
| `KeyFileExactly.StoredExactly` | cli/core/api_keys.py:132-142 | A name stores a value exactly when the last line that gives the name a value gives it that one. |
| `KeyFile.SaveKeys` | cli/core/api_keys.py:145-183 | The validation and the two rendering loops give the text that `SavedExactly` describes, or the first name that `NameExactly` excludes. |
| `KeyFileExactly.SavedExactly` | cli/core/api_keys.py:165-183 | The saved text: every line as it was, but a line of a saved name is renewed with the stripped value, or taken out when that is empty; then an assignment of every other key with a value, in the order given; on lines of their own, and exactly one line feed at the end. |
| `KeyFileExactly.NameExactly` | mak/endpoints/types.py:197-204 | A name is valid exactly when, without the space around it, it starts with a capital letter or an underscore and goes on with these and digits. |
| `KeyFileLaws.ReadsBackExactly` | cli/core/api_keys.py:145-183 | Saved names read back with their stripped values, and emptied ones not at all, exactly when every key with a value has a plain name and no line break in the value. |
| `KeyFileSurvival.OtherLinesSurvive` | cli/core/api_keys.py:148-151 | Whatever is saved, every comment, blank line and other variable's line survives verbatim and in order; only blank lines at the end are trimmed. |
| `KeyFileSurvival.OtherLinesExactly` | cli/core/api_keys.py:165-183 | For every file, nothing but those lines and lines of saved names is there afterwards, exactly when every line that is written has a saved name, appended blank ones aside. |
| `KeyFileSurvival.LinesStayInOrder` | cli/core/api_keys.py:167-176 | Every save keeps the existing lines in order: each that is not removed is there as itself, or as the first line of its key under the same name. |
| `KeyFileSurvival.LinesStayInPlaceExactly` | cli/core/api_keys.py:148-151 | Names are updated in place, every line at its position, for every file exactly when every plain key has a value on one line. |
| `KeyFileSettling.SecondSaveChangesNothing` | cli/core/api_keys.py:165-183 | Saving the same keys again changes nothing, for every file, exactly when every line written besides the first of a plain name has a name saved without a value, and padded keys come last. |
| `KeyFileSettling.StorableSettles` | cli/core/api_keys.py:165-183 | Keys that read back settle; when no key is removed, no others do. |
| `KeyFileLaws.OtherNamesUndisturbed` | cli/core/api_keys.py:145-183 | What is stored under names that are not being saved stays as it was, for every file, exactly when every line that is written and stores anything stores it under a saved name. |
| `KeyFileLaws.NameUndisturbedExactly` | cli/core/api_keys.py:145-183 | The same for one name: it keeps what it stores exactly when no line that is written stores under it. |
| `KeyFileLaws.EarlierSaveStays` | cli/core/api_keys.py:145-183 | A later save of other keys, if it keeps to its names, leaves what an earlier save stored, whatever the earlier one wrote. |
| `KeyFileCommuting.DisjointSavesCommute` | cli/core/api_keys.py:145-183 | Two saves of disjoint names that keep to their names commute in what they store, for every file, exactly when neither writes a line that changes which of the other's lines has the last word. |
| `KeyFileCommuting.StorableSavesCommute` | cli/core/api_keys.py:145-183 | Saves of disjoint names that read back always commute. |
| `KeyFileCommuting.TwoSavesDoNotCommute` | cli/core/api_keys.py:165-181 | Two concrete saves of disjoint names that keep to their names and do not commute; `KeepingToKeysIsNotEnough` gives the family. |
| `KeyFileSettling.PaddedNameIsAppendedEveryTime` | cli/core/api_keys.py:160-182 | A name with space around it passes validation, but each save appends one more line for it. |
| `KeyFileSettling.PaddedNameStoresUnderPlain` | cli/core/api_keys.py:160-182 | Saving a name with space around it changes what the plain name stores, in every file, and stores nothing under the name as given. |
| `KeyFileText.BodyLines` | cli/core/api_keys.py:183 | Rendering entries and splitting the text gives the lines of every entry in order, but for empty ones at the end. |
| `KeyFileLines.SavedLines` | cli/core/api_keys.py:165-183 | The lines of the saved text, for all keys: what each existing line becomes, then the lines of the missing keys, trimmed at the end. |

## Left out

- The lock table, the scheduler, the node store, the session, the commit pipeline and the planner
  are not part of this model; the loop meets the session only through `Environment` and the
  methods of `Session`.
- CascadeLoop.Session.RememberState: the session's store of fingerprints is not part of this
  model; it is taken to append what it does not hold yet. The loop never remembers a fingerprint
  twice (`RunNeverRepeats`), so a store that always appends behaves alike.
- The fallback fingerprint over task ids, nodes and obligations, and the `announce` callback: the
  fingerprint is an arbitrary function of the batch.
- The texts of stop reasons, errors and drop reasons: each is an enumeration value or a flag.
- Fields of a task the modelled code only carries along (description, agent type, registry keys).
- `ExecutionResult` collects `completed`, `blocked`, `skipped` and `noop` by the code that
  collects `failed`; only `failed` is modelled.
- ConflictAvoiding.AssignOperations: the `module_owned`, `round_robin`, `random` and
  `from_profile` policies, which are one-line formulas or random.
- LinearFit.FitIsLeast: arithmetic is over the reals; floating-point rounding is not modelled.
- ResultCodec.RoundTripExactly: JSON text is not modelled, a message is a JSON value; a result
  object is the record of the keys the decoder reads, other keys being ignored by it; `str` and
  `json.loads` are a parameter (`Reader`); floats are reals, so NaN is not modelled.
- SourceMapping.MapReturnedSources: the order of the keys in the accepted dictionary; without an
  order key every id is unknown to it.
- ProcessPool.StepSafe: pipes, timeouts and result parsing, which only decide between releasing
  and dropping, are a free choice of the thread; terminating a process makes it dead. The class
  `AgentRunner` holds the sections under the lock, one at a time; their interleaving is modelled
  on values.
- RegistrationTables.AddRegistration: a source is the list of its lines, so the line feed added to
  an unterminated last line, and terminators other than a line feed, are not modelled.
- RegistrationTables.UnionIsExact: `registration_source` is modelled only for an empty list of
  lines, as the merge calls it.
- RegistrationSurvival.RunSurvives: reading and writing the table files; a table is its whole
  file.
- KeyFile.SaveKeys: the temporary file, its mode and its failures, and the process environment,
  which receives the value as given.
- KeyFileCommuting.DisjointSavesCommute: the condition is for saves that keep to their names. Of
  others, `OtherNamesUndisturbed` says that some file shows the difference for one of them.
- The other functions of `template4_spec.py` (submission digests, queries, retries by status) and
  of `template2_spec.py` (binomials, prime factors, run-length coding): one-branch facts, or
  algorithms unrelated to coordination.
- `template3_spec.py`, configuration parsing, the command line and terminal interface, Docker, git
  and provider clients.
