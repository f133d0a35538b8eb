# Verified model of Mercury's core

Mercury turns an authorised request into an immutable, digest-bound plan, runs that plan
through one bounded task lifecycle, and commits the outcome to a lease-protected store. This
project models those cores in Dafny and proves what they promise, for every input, every
interleaving and runs of any length.

Run `dafny verify dfyconfig.toml`.

## How the model is built

* Everything that suspends at an `await` is a state machine whose actions are the code
  between two suspension points. A run is any sequence of actions, so a theorem about runs is
  a theorem about interleavings. The objects that the program updates in place
  (`TaskContext`, `HistoryStore`, `PairedListenerService`, `CoverageReceiverService`,
  `_NonceCache`) are classes as well, and each method is proved to leave the fields exactly as
  the corresponding action says; the context's methods keep its invariant. The compilers are
  methods with the source's loops, proved against the functions that the theorems are about.
* The parts are connected. `Revalidation.ValidatedPlanIsReserved` shows that whatever the plan
  validator accepts satisfies `Plans.Reserved`; that is the only thing the task theorems ask of
  a plan. `Preflight.PreflightSound` supplies what task admission assumes of its preflight
  answer. The paired listener runs on the task's own state machine, not on a copy of it.
* What an operation does is stated apart from how it does it. `AdmissionRules`, `TaskRules`,
  `TaskEndings`, `HistoryRules`, `PlanContents`, `PlanPublishing`, `SparseContents`,
  `ListenerEvidence` and `DocumentRules` say of each operation, in the system's own terms, exactly
  when it acts or refuses and everything it leaves behind; where there are runs, in every
  reachable state.
* SHA-256 over canonical JSON is a free constructor over the hashed value. JSON text is an
  abstract printer with its commas and brackets spelled out. Clocks and rates are reals, so
  float rounding of `1 / rate` and of durations is not modelled. An IP network is a version, a
  base integer and a prefix length. Parsing and printing of targets, and ISO-8601 text of
  results, are parameters with a stated round-trip assumption (`Networks.Faithful`,
  `Codec.Faithful`); `PlanWitnesses.SomeEnvironmentSound`, `Codec.ManyWarningsLost` and
  `PairedListener.PlainLeaseValid` show that what the theorems assume can be met. Persistence safety (the secret patterns) is a parameter without any
  assumption.

| files | subject |
|---|---|
| `TaskLedger`, `TaskInvariants`, `TaskTheorems`, `AdmissionRules`, `TaskRules`, `TaskRuns`, `Pacing`, `TaskContext`, `TaskLifecycle`, `TaskEndings`, `OutputCeilings`, `WorkerPool` | admission, accounting, pacing, terminal results and their size, the full-scan worker pool |
| `HistoryTable`, `HistorySafety`, `HistoryRules`, `Retention`, `HistoryStore`, `WireTime` | the shared table, recovery in two steps, retention, stored time |
| `Networks`, `Plans`, `Policy`, `Cartesian`, `CartesianTheorems`, `Sparse`, `PlanContents`, `PlanPublishing`, `SparseContents`, `Revalidation`, `Authorization`, `Preflight`, `PlanWitnesses` | both plan compilers, what they accept and publish, the re-checker, confirmations, preflight, concrete plans |
| `PairedListener`, `ListenerEvidence`, `PairedService`, `CoverageReceiver`, `PeerReplay`, `WireFormats` | claim races, receipts, replay protection, tags and DNS messages |
| `Codec`, `DocumentRules`, `JsonText`, `ResultDocument` | freezing, thawing, the result wire form and the documents it accepts |
| `Outcomes`, `Collections` | results, sums, canonical sequences |

## What the proofs found

Some natural expectations are false of the code. For each, the model keeps the code as it is,
states exactly when the expectation holds, and where useful gives a concrete witness.

1. A frame can be accepted twice by the peer listener. The clock is read once for the expiry
   check and again for the cache; a frame whose expiry falls between the two readings has
   already been evicted (`PeerReplay.ReplayStraddlesExpiry`, `PeerReplay.ReplayAcceptedAcrossExpiry`).
   With one reading for each connection no frame is ever accepted twice (`PeerReplay.AtMostOnce`).
2. Recovery compares state, owner and lease, but not identity. A reachable state gets a result
   of the wrong identity exactly when a recovery commits while those three still agree and kind
   or digest do not (`HistorySafety.MismatchExactly`, and over whole runs
   `HistorySafety.IdentityLostExactly`). It happens when an owner re-creates a task under the
   id, state and lease of one it had before (`HistorySafety.RecreatedRowLosesIdentity`), and never
   without such re-creation (`HistorySafety.ResultIdentity`). The interface meant is that of
   `HistoryStore`, whose callers choose id, owner and lease; `TaskService`, which has an owner of
   its own, refuses an id while it runs that task or holds its result.
3. The silence pass of `PairedListenerService.stop` ends at its first failure. If the record of
   TCP silence raises, an unclaimed UDP step is not visited and stays open
   (`PairedListener.FailedSilenceLeavesUdpOpen`); `PairedListener.StopExactly` says when, and
   `PairedListener.StopResolves` that a pass without failures leaves nothing open. After a start
   that was aborted before both steps were admitted, the pass records silence for a step that the
   task never admitted, and the task raises (`PairedListener.AbortedStartFaults`); this is the
   only lifecycle error (`PairedListener.FaultsExactly`).
4. Not every published plan revalidates. A Cartesian plan fails exactly for the two sparse profile
   names and for tcp+udp with a payload (`Revalidation.CartesianRevalidates`; inputs:
   `PlanWitnesses.SparseNameRefused`, `PlanWitnesses.PayloadPlanRefused`). A sparse plan fails
   exactly when the router picks the other compiler or when a step names a hostname that no
   address-bearing step resolves (`Revalidation.SparseRevalidates`; inputs:
   `PlanWitnesses.AssessmentPlanMisrouted`, `PlanWitnesses.LookupPlanRefused`).
5. The Cartesian compiler does not look at the probe kinds of a grant, but preflight does. One
   probe of 10.0.0.1 under a grant without kinds compiles, validates at every later time, and has
   its every step refused (`PlanWitnesses.OfficePlanNeverStarts`). While the scope is current and the
   octets are the approved ones, a step passes exactly when its target is loopback or its kind
   granted and, if it has a hostname, the resolver still names the planned addresses
   (`Preflight.NamelessPassesExactly`, `Preflight.PreflightExactlyWhenUnchanged`; for any plan,
   `Preflight.PreparedExactly`).
6. The submission check does not make every terminal result fit `max_output_bytes`: the progress
   counters gain decimal places afterwards. No run of a task ends above the ceiling exactly when
   the ceiling has room, at submission, for the fallback and for 2 * (digits of total - 1) octets
   more (`OutputCeilings.CeilingKeptExactly`). These runs have no deadline; for runs on time and
   within `max_duration_s` the same holds of every plan whose pacing fits into it
   (`OutputCeilings.CeilingKeptInTimeExactly`). `OutputCeilings.TightTaskExceeds` is a task of ten
   probes that the size check accepts and one of whose runs, in time, ends two octets above.
7. Pacing bounds the accounted start times, not the clock. A waiter that wakes before its start
   time starts early; if nobody does, the clock keeps every span (`Pacing.PunctualRunsKeepSpans`),
   and among starts as close as pacing allows it keeps them only then (`Pacing.ClockSpansExactly`).
   At one start per second, two starts may lie half a second apart (`Pacing.HalfSecondApart`).
8. Stored leases are truncated to milliseconds, so a recovery may take a row up to one
   millisecond before its lease ends (`HistorySafety.LeaseExpiryInStoredTime`).
9. `append_event` ignores the task's state, so an observation event may follow the closing
   event (`HistorySafety.ObservationMayFollowClosing`).
10. Not every result survives the wire. The constructors and the decoder accept local times with
    any offset, but the encoder writes UTC and raises when an instant falls outside the years 1 to
    9999 there; and more than 256 configuration warnings encode but do not decode. A result
    survives exactly when its instants are in the UTC calendar and its warnings are at most 256
    (`Codec.ResultRoundTrip`); a decoded one exactly when its instants are
    (`Codec.DecodedIsValid`). Inputs: `Codec.EarlyResultLost`, whose task starts at the first
    moment of the year 1 five hours east of Greenwich, and `Codec.ManyWarningsLost`.
11. Coverage tags are prefix-free only among correlations of one length
    (`WireFormats.CoverageAdmission`); a correlation of 64 characters is allowed by the lease
    but is not a legal label under section 2.3.4 of RFC 1035, and the reply to it cannot be
    read (`WireFormats.ReplyReadsBack`); a DNS receiver ignores the query's four counts
    (`WireFormats.ReplyAcceptsExactly`).

## Model

| member | source | states |
|---|---|---|
| TaskInvariants.RunValid | src/mercury/tasks.py:501-589 | In every reachable state of every interleaving completed steps are observed, observed steps are admitted, the counters are the sizes of the sets, completed <= admitted <= total, in-flight <= max_concurrency even when steps complete during an admission's wait, spending is the cost of the admitted set, and the byte totals are exact |
| TaskInvariants.ActionValid | src/mercury/tasks.py:501-835 | Each atomic action of the context keeps that invariant, also when it raises halfway |
| TaskInvariants.SpentAdmit | src/mercury/tasks.py:556-578 | Admitting one more step raises the cost of the admitted set by exactly that step's cost |
| AdmissionRules.CeilingsOfAnyPlan | src/mercury/tasks.py:507-579 | In every run of any plan, also one whose estimate does not add up, the spending stays inside the three reservations, the admitted steps inside the plan and those in flight inside max_concurrency |
| AdmissionRules.BeginExactly | src/mercury/tasks.py:507-522 | In every run a request for admission takes the lock exactly if its step is planned and not admitted, nobody holds the lock, the task is not cancelled and there is room for one more; otherwise nothing changes, and it raises unless it only waits for the lock |
| AdmissionRules.PrepareExactly | src/mercury/tasks.py:523-545 | After preflight the step waits for the latest of the clock and its two next starts, or gives the lock back because it was refused or cancelled |
| AdmissionRules.WakeExactly | src/mercury/tasks.py:545-579 | A cancelled wait commits nothing; otherwise pacing moves one gap past the later of planned and real start, and the step is admitted with its cost exactly if that fits all three reservations |
| TaskRules.CancellationStopsAdmission | src/mercury/tasks.py:507-579 | Once a task is cancelled, at most the step whose wait was already under way is still admitted, in any continuation |
| TaskTheorems.IncrementalBytesExact | src/mercury/tasks.py:442-499 | After any run, the empty result plus the four running totals is the exact length of the serialised candidate result |
| TaskTheorems.ReservationRefinesSerialisation | src/mercury/tasks.py:475-499 | The incremental check refuses an item exactly when serialising the whole result with it would exceed max_output_bytes, and for no other reason |
| ResultDocument.ResultBytesSplit | src/mercury/tasks.py:442-499 | A serialised result is as long as the empty one plus what its four lists hold between their brackets, commas included |
| TaskTheorems.ReservationErrorsUnreachable | src/mercury/tasks.py:512-574 | For a reserved plan the over-plan and the three over-reservation errors occur in no run |
| TaskTheorems.EventsWithinBudget | src/mercury/tasks.py:747-772 | While a task runs, the events persisted for it leave room for the closing one within max_events |
| TaskLifecycle.AllEventsWithinBudget | src/mercury/tasks.py:747-1487 | Over every run and ending, the terminal notes and the closing event included, the events persisted for a task never exceed max_events |
| TaskTheorems.EventReserveSuffices | src/mercury/tasks.py:752-756 | With the sparse estimate, no step observation is refused by the event budget until two unreserved ones are in, and no aggregate or terminal one until one is |
| TaskTheorems.EventBudgetExact | src/mercury/tasks.py:754-756 | The event budget refuses an aggregate or terminal observation exactly when the recorded observations and five more events do not fit in max_events |
| TaskTheorems.CompletedOnce | src/mercury/tasks.py:501-589 | Over any run each step is admitted at most once and completed at most once, and the sets say which |
| TaskTheorems.ObservedOnEvidence | src/mercury/tasks.py:641-745 | An observed step has evidence accepted for it in the run, or was completed as an aggregate |
| TaskRules.GuardsExactly | src/mercury/tasks.py:600-680 | The guards let evidence through exactly if its step is admitted and open, target, attempt and probe are that step's, kind and direction are ones the probe (or the paired phase) can give, and no reserved identifier or key is used |
| TaskRules.RecordExactly | src/mercury/tasks.py:596-715 | In every reachable state such evidence is kept with the fields of its step, stored and counted, if step cost, event budget and output ceiling have room; any other is refused without a trace |
| TaskRules.AppendExactly | src/mercury/tasks.py:747-772 | An observation is appended exactly if it is safe to keep, leaves an event to spare and fits the serialised result |
| TaskRules.ConcludeExactly | src/mercury/tasks.py:774-794 | In every reachable state a conclusion is taken exactly if it is not the task's own, is safe, and its step, list and ceiling have room |
| TaskRules.ClaimExactly | src/mercury/tasks.py:796-814 | The same for a capability |
| TaskRules.ComplainExactly | src/mercury/tasks.py:816-834 | The same for an error text, which raises only for a step that is not admitted and open |
| TaskRules.StepCostsKept | src/mercury/tasks.py:682-834 | In every reachable state no step has used more observations, conclusions, capabilities, errors or output than its cost reserves |
| Pacing.PacingBound | src/mercury/tasks.py:540-556 | Any k+1 successive admissions span at least k / max_global_rate, and any k+1 to one address k / max_target_rate, in accounted start times, whatever the wake-up delays |
| Pacing.ActualSpan | src/mercury/tasks.py:540-556 | On the clock the same spans hold up to how early the last waiter woke |
| Pacing.WindowBound | src/mercury/tasks.py:540-556 | A window of length w holds at most floor(w * rate) + 1 starts |
| Pacing.PunctualExactly | src/mercury/tasks.py:543-578 | Every start of a run is on time on the clock exactly when no waiter woke before its start time |
| Pacing.PunctualRunsKeepSpans | src/mercury/tasks.py:540-556 | If no waiter wakes early, any k+1 successive starts span k gaps on the clock, for the whole task and for each address |
| Pacing.ClockSpansExactly | src/mercury/tasks.py:540-556 | Starts as close as pacing allows, the first on time, keep the clock spans exactly when each of them is on time |
| Pacing.EarlyWakeShortensGap | src/mercury/tasks.py:543-556 | In any plan of two steps or more there is a run whose second start lies any chosen part of one gap too close behind the first |
| Pacing.HalfSecondApart | src/mercury/tasks.py:543-556 | A concrete plan at one start per second, and its run with two starts half a second apart |
| TaskRuns.ReadyIsAdmitted | src/mercury/tasks.py:507-579 | A planned, not yet admitted step below the in-flight ceiling is admitted by its three actions without an error |
| TaskRuns.ThroughCompletes | src/mercury/tasks.py:501-745 | Admitting and completing the steps of a plan one after the other, one gap apart, never fails, starts each on time, and leaves all counters at the number of steps |
| TaskContexts.TaskContext.constructor | src/mercury/tasks.py:360-421 | A new context is the initial state of every run |
| TaskContexts.TaskContext.AdmitBegin | src/mercury/tasks.py:507-522 | Admission up to its first suspension takes the lock or refuses, as the begin action says |
| TaskContexts.TaskContext.AdmitPrepare | src/mercury/tasks.py:523-545 | Admission from the preflight answer to the pacing wait |
| TaskContexts.TaskContext.AdmitWake | src/mercury/tasks.py:546-579 | Admission after the wait: pacing moves first, then the reservations are checked, then the step is admitted |
| TaskContexts.TaskContext.ReserveOutputItem | src/mercury/tasks.py:475-499 | The totals move by the item's exact contribution when it fits and not at all otherwise |
| TaskContexts.TaskContext.AppendObservation | src/mercury/tasks.py:747-772 | List and event count move before the store answers; every refusal leaves them as they were |
| TaskContexts.TaskContext.Record | src/mercury/tasks.py:596-715 | Evidence is bound to an admitted, open step within its own reservation, or refused without a trace |
| TaskContexts.TaskContext.CompleteAttempt | src/mercury/tasks.py:581-589 | Completion needs an admitted, observed, not yet completed step |
| TaskContexts.TaskContext.CompleteAggregateAttempt | src/mercury/tasks.py:731-745 | Aggregate completion observes and completes an admitted step |
| TaskContexts.TaskContext.Conclude | src/mercury/tasks.py:774-794 | A conclusion is reserved, attributed and counted, or refused |
| TaskContexts.TaskContext.Claim | src/mercury/tasks.py:796-814 | A capability is reserved, attributed and counted, or refused |
| TaskContexts.TaskContext.Complain | src/mercury/tasks.py:816-834 | An error text is added, or dropped silently when there is no room |
| TaskLifecycle.CompletedIsSound | src/mercury/tasks.py:1370-1507 | Over every run and every way the runner can end, COMPLETED means no cancellation, and every plan step admitted exactly once and completed exactly once on evidence or as an aggregate |
| TaskLifecycle.StatePrecedence | src/mercury/tasks.py:1371-1487 | Failure takes precedence over cancellation; only an uncancelled return with every step completed may be COMPLETED |
| TaskEndings.StateExactly | src/mercury/tasks.py:1394-1487 | Over every run and ending: COMPLETED exactly if the runner returned, uncancelled, with every step completed, and the whole result commits; CANCELLED exactly if task or runner was cancelled without a timeout or an exception, and it commits; every other result is FAILED; there is none exactly if the store refuses twice |
| TaskEndings.WholeResultCommitted | src/mercury/tasks.py:963-1002 | The result that commits is the whole document in that state, with every observation, conclusion, capability and error, not the fallback |
| TaskEndings.NotesExactly | src/mercury/tasks.py:1394-1480 | Closing adds a failure note and a cancellation note exactly if there was one and it fits, and nothing to a task that finishes |
| TaskEndings.ErrorsExactly | src/mercury/tasks.py:940-950 | It adds the failure's text, and one text for each note that could not be kept and stored, as far as there is room |
| TaskEndings.ResultValidExactly | src/mercury/models.py:493-566 | A result can be constructed exactly if its lists are in bounds, identifiers are pairwise distinct and citations known |
| TaskEndings.RevalidatedExactly | src/mercury/tasks.py:1035-1048 | After a refused commit exactly the first safe observation under each identifier survives |
| TaskEndings.SafeItemsExactly | src/mercury/tasks.py:1051-1062 | and exactly the safe capabilities, in their order |
| TaskEndings.FailureExactly | src/mercury/tasks.py:1005-1107 | When the whole result cannot be constructed or was refused, the task ends with exactly what survives, the closing observation, and at most 255 errors and the closing one; when that does not fit either, or the whole result does not fit, with the fallback |
| TaskLifecycle.TerminalSizeBound | src/mercury/tasks.py:963-1107 | Every result built for the store, on all three paths, has at most max(max_output_bytes, fallback at submission + 2 * (digits of total - 1)) octets |
| OutputCeilings.CeilingKeptExactly | src/mercury/tasks.py:1131-1171 | Over all runs and endings, without a deadline, no terminal result exceeds max_output_bytes exactly when the fallback measured at submission and 2 * (digits of total - 1) octets fit together |
| OutputCeilings.CeilingKeptInTimeExactly | src/mercury/tasks.py:1131-1385 | The same over runs on time and within max_duration_s, for every plan whose pacing fits into it |
| OutputCeilings.ExceedingRun | src/mercury/tasks.py:1005-1107 | Wherever they do not, completing every step and then meeting a store that refuses the first result ends in a failed result of exactly that size |
| OutputCeilings.TightTaskExceeds | src/mercury/tasks.py:1151-1171 | A concrete task of ten steps that the size check of submission accepts and one of whose runs, on time and before the deadline, ends two octets above its ceiling |
| TaskLifecycle.CloseTask | src/mercury/tasks.py:1461-1507 | Closing a live context gives the result and the final state that the theorems are about |
| TaskLifecycle.SettleOn | src/mercury/tasks.py:1394-1487 | The terminal notes and the state they lead to |
| WorkerPool.CeilingNeverHit | src/mercury/discovery.py:406-419 | No worker of the full scan hits the in-flight ceiling, admits a step twice or asks for an unknown one |
| WorkerPool.DispatchExactlyOnce | src/mercury/discovery.py:408-416 | Steps are handed out in plan order, each at most once, and each exactly once when the iterator is exhausted |
| WorkerPool.WorkerExactly | src/mercury/discovery.py:406-419 | A worker ends exactly when it finds the iterator exhausted or its own action on the task raises, for good; it takes another step only after completing its own |
| HistorySafety.LifecycleSafety | src/mercury/history.py:622-996 | In every interleaving of owners a task has exactly one closing event once closed and none before, open rows have owner and lease and no result, closed rows the reverse, and sequences run from 1 without gaps |
| HistorySafety.ClosedRowsFrozen | src/mercury/history.py:848-926 | As long as retention leaves it, a closed row never changes |
| HistorySafety.MismatchExactly | src/mercury/history.py:672-705 | In every reachable state an operation writes a result of the wrong identity exactly when it is a recovery whose state, owner and lease agree with the row while kind or digest do not; a finish never does |
| HistorySafety.IdentityLostExactly | src/mercury/history.py:672-705 | A run ever holds a result of the wrong identity exactly when one of its recoveries is such a commit |
| HistorySafety.ResultIdentity | src/mercury/history.py:672-941 | If no row is given the id, state, owner and lease of an earlier one, every result carries the id, kind and digest of its row |
| HistorySafety.RecreatedRowLosesIdentity | src/mercury/history.py:672-705 | A run in which the compare-and-swap of recovery lets a wrong identity through |
| HistorySafety.LeaseExpiryInStoredTime | src/mercury/history.py:633-650 | In stored time a lease has expired exactly from its truncated millisecond on, less than one millisecond early |
| HistorySafety.ObservationMayFollowClosing | src/mercury/history.py:972-996 | An observation event can be appended after the closing one, which stays the only one |
| HistoryRules.CreateExactly | src/mercury/history.py:707-787 | In every reachable table a task is created exactly under an unused id and with a lease that ends later, with its first event |
| HistoryRules.RunExactly | src/mercury/history.py:789-846 | A task starts exactly for the owner of its pending row with a lease that ends later; otherwise the whole store stays as it was |
| HistoryRules.FinishExactly | src/mercury/history.py:848-926 | A finish changes the row of its task exactly if that is running, owned by the finisher and of the same kind and digest; then the row takes result, state and time and loses owner and lease; any other finish leaves the whole store as it was |
| HistoryRules.RecoverExactly | src/mercury/history.py:664-705 | A recovery changes the table exactly if it had read the row and state, owner and lease are still what it read |
| HistoryRules.AppendExactly | src/mercury/history.py:972-996 | Appending needs the task only and takes its next sequence; reading changes nothing |
| HistoryRules.SnapshotsExactly | src/mercury/history.py:631-662 | Recoveries hold exactly what an earlier read of the run saw: an open row whose lease had ended, with a failed result under its identity |
| HistoryRules.OnlyExpiredRecovered | src/mercury/history.py:631-705 | A recovery never takes a row whose present lease had not ended when some earlier read looked at it |
| HistoryRules.SequenceExactly | src/mercury/history.py:951-955 | In any table the largest sequence of a task is one of its events' and above all of them |
| HistoryStores.HistoryStore.NextSequence | src/mercury/history.py:951-955 | The next sequence is one more than the largest in use |
| HistoryStores.HistoryStore.CreateTask | src/mercury/history.py:707-787 | Creation inserts the pending row with its first event, or refuses and changes nothing |
| HistoryStores.HistoryStore.MarkRunning | src/mercury/history.py:789-846 | Only the owner of a pending row moves it to running |
| HistoryStores.HistoryStore.FinishTask | src/mercury/history.py:848-926 | Only the owner of a running row with the same identity closes it; retention follows |
| HistoryStores.HistoryStore.ReadStale | src/mercury/history.py:631-662 | Recovery reads exactly the open rows without a live lease |
| HistoryStores.HistoryStore.CommitRecovery | src/mercury/history.py:672-705 | It closes a row exactly when state, owner and lease are what was read |
| HistoryStores.HistoryStore.AppendEvent | src/mercury/history.py:972-996 | An event of an existing task gets the next sequence |
| HistoryStores.HistoryStore.Prune | src/mercury/history.py:1054-1083 | The deletions leave exactly what the retention rules keep, and their number is returned |
| RetentionRules.PruneKeeps | src/mercury/history.py:1054-1083 | Retention loses no active task, keeps at most max_tasks closed ones, none older than the cutoff, and leaves survivors and their events untouched |
| RetentionRules.PruneDropsOldest | src/mercury/history.py:1069-1076 | A task dropped by count is older, in (updated_at, task_id) order, than every closed task kept |
| RetentionRules.DropsOnlyTheExcess | src/mercury/history.py:1069-1082 | If anything is dropped by count, exactly max_tasks closed tasks remain |
| RetentionRules.PruneIdempotent | src/mercury/history.py:1054-1083 | A second retention at the same time changes nothing |
| WireTimes.TextOrderIsTimeOrder | src/mercury/history.py:439-442 | For all calendar instants, comparing the stored UTC texts is comparing milliseconds |
| WireTimes.NextIsOneLater | src/mercury/history.py:439-442 | The calendar's milliseconds count up by one from each instant to the next, carries of clock, month and leap year included |
| Networks.AllowedNetworkMembers | src/mercury/policy.py:304-344 | Every address of an allowed network is internal, may be named itself for IPv4, and is loopback in a loopback network |
| Networks.HostCountMatchesHosts | src/mercury/policy.py:118-126 | The host count is the number of addresses that are enumerated |
| Networks.AllowedExactly | src/mercury/policy.py:304-322 | The addresses that may be named, as number ranges: loopback and the private ranges, link-local IPv6 with a scope |
| Networks.GrantableExactly | src/mercury/policy.py:325-344 | The networks a grant may hold are exactly those inside one such range |
| Networks.HostsExactly | src/mercury/policy.py:118-126 | The enumerated addresses are exactly those of a network of one or two; a larger one leaves out its first and, for IPv4, its last |
| Policy.Normalize | src/mercury/policy.py:422-429 | The loop gives the duplicate-free targets in order of their canonical text |
| Policy.NormalizedTargets | src/mercury/policy.py:422-429 | Normalised targets are allowed, strictly ascending, and parse back from their text |
| Policy.AddressesFromResolution | src/mercury/policy.py:468-514 | The loop gives the canonical endpoints of an answer or refuses it |
| Policy.ResolutionDependsOnSet | src/mercury/policy.py:468-514 | Order and multiplicity of a resolver's answer never show |
| Policy.ResolvedEndpoints | src/mercury/policy.py:468-514 | Canonical endpoints are exactly the answered ones, distinct, private, and in numeric order |
| Policy.ResolvesExactly | src/mercury/policy.py:517-540 | A hostname resolves for a plan exactly if the grant is current and names it (or it is localhost), the answer is canonical, and each address is in a grant network, or loopback under the name localhost |
| Policy.RechecksExactly | src/mercury/policy.py:543-563 | Preflight resolves it again under the same conditions, attestation apart |
| Cartesian.CheckedProduct | src/mercury/planner.py:836-844 | The loop computes the checked product |
| Cartesian.CheckedExact | src/mercury/planner.py:836-844 | It succeeds exactly when no factor is negative and the true product of the factors before the first zero fits, and is then the true product |
| Cartesian.Compile | src/mercury/planner.py:882-975 | The nested loops produce the specified steps or refuse |
| Cartesian.CompilePlan | src/mercury/planner.py:1105-1347 | The Cartesian compiler, refusal by refusal, is the function that the theorems are about |
| CartesianTheorems.CountIsExact | src/mercury/planner.py:1224-1261 | Compiled steps number hosts * ports * transports * repeats, so the mismatch error is unreachable |
| CartesianTheorems.StepsExactly | src/mercury/planner.py:911-975 | The steps are exactly one for each place, port, transport and attempt |
| CartesianTheorems.StepsDistinct | src/mercury/planner.py:911-975 | Their identifiers are pairwise distinct |
| CartesianTheorems.CartesianPlanIsReserved | src/mercury/planner.py:1105-1347 | A published Cartesian plan reserves the sums over its distinct steps, and every step address is internal and loopback or inside a grant network |
| PlanContents.RequestReadExactly | src/mercury/planner.py:1124-1223 | A request is read exactly if every value parses to a permitted target and each bound, port, transport and payload rule holds, and then as what it asks for |
| PlanPublishing.PublishedExactly | src/mercury/planner.py:1105-1347 | A Cartesian request is published exactly if it is read, every target expands (names resolve in scope, networks can be enumerated), the work in closed form fits its limits, and a digest-bound payload has UDP |
| PlanPublishing.BytesTotal | src/mercury/planner.py:1224-1261 | The bytes of all steps are addresses * ports * repeats * payload * (TCP attempts + UDP datagrams) |
| PlanContents.StepsAsRequested | src/mercury/planner.py:882-975 | Every step of a published plan, from the request: UDP steps are udp_exchange, TCP steps tcp_connect; a TCP step costs no datagram, one packet and the payload, a UDP step the requested datagrams, as many packets and as many payloads; timeout, attempt, payload and observation limits are the request's |
| PlanContents.EveryCombinationStepped | src/mercury/planner.py:911-975 | Each address of each requested target has a step for each port, transport and attempt |
| PlanContents.PublishedAsRequested | src/mercury/planner.py:1290-1347 | Targets, ports, transports, repeats, payload, grant and limits of the plan are those of the request, and its digest binds everything it shows |
| PlanPublishing.PublishedAsResolved | src/mercury/planner.py:1224-1347 | The plan shows one snapshot for each hostname among its targets, with the canonical answer, and the estimate that its steps and limits give |
| PlanContents.ConfirmationsExactly | src/mercury/planner.py:1290-1327 | A full port range asks for the confirmation of each transport, a digest-bound payload for its own, and nothing else for any |
| PlanContents.PlanWithinLimits | src/mercury/planner.py:1224-1290 | A published plan keeps within its own limits and those within the absolute ceilings |
| Sparse.Compile | src/mercury/planner.py:1017-1046 | The sparse loop gives the steps and the hostname slots, or the first refusal |
| Sparse.CompileProbes | src/mercury/planner.py:996-1102 | The sparse compiler is the function that the theorems are about |
| Sparse.SparsePlanIsReserved | src/mercury/planner.py:1059-1102 | A published sparse plan reserves the sums over its distinct steps, one event for each permitted observation and five more, and names only authorised addresses |
| SparseContents.CompilesExactly | src/mercury/planner.py:1017-1044 | The loop over a list of probes succeeds exactly if each is permitted on its own and no slot of a hostname has two addresses |
| SparseContents.ContiguousExactly | src/mercury/planner.py:1039-1058 | The remembered slots are contiguous exactly if each hostname's slots first appear in the order 0, 1, 2 and so on |
| SparseContents.PublishedExactly | src/mercury/planner.py:996-1102 | A list is published exactly if it is not empty, each probe is permitted, slots agree and appear in order, probes differ, active ones reserve packets, UDP payloads are one, and the work fits the limits |
| SparseContents.PublishedAsListed | src/mercury/planner.py:1045-1102 | The plan shows exactly the listed probes in their order, and for each hostname, in text order, the addresses of its slots; its digest binds everything it shows |
| SparseContents.PublishedEstimate | src/mercury/planner.py:1059-1080 | Its estimate is what its steps and limits give |
| Revalidation.CartesianFixpoint | src/mercury/planner.py:1417-1452 | Recompiling a Cartesian plan with one step payload gives the same plan: targets, steps, sums, resolutions, digest |
| Revalidation.CartesianRevalidates | src/mercury/planner.py:1361-1452 | A Cartesian plan validates exactly when it is not from the future, its scope is current, its profile is not a sparse name, and it is not tcp+udp with a payload |
| Revalidation.SparseRevalidates | src/mercury/planner.py:1361-1416 | A sparse plan validates exactly when it is not from the future, its scope is current, the router picks the sparse branch, and every named hostname is resolved by some step |
| PlanWitnesses.SingleCompiles | src/mercury/planner.py:1105-1452 | Every authorised request for one address and port compiles, and validates exactly while current unless its profile name is sparse or it pairs UDP with a payload |
| PlanWitnesses.AssessmentPlanMisrouted | src/mercury/planner.py:1390-1395 | A plan with the assessment profile name that compiles and never validates |
| PlanWitnesses.PayloadPlanRefused | src/mercury/planner.py:1390-1452 | A tcp+udp plan with one octet of payload that compiles and never validates |
| PlanWitnesses.SparseNameRefused | src/mercury/planner.py:1390-1395 | A Cartesian plan under either sparse profile name that compiles and never validates |
| PlanWitnesses.LookupPlanRefused | src/mercury/planner.py:1361-1389 | A sparse plan of one name lookup that compiles and never validates, for want of a snapshot |
| PlanWitnesses.HomePlanValidates | src/mercury/planner.py:1105-1452 | One TCP probe of 127.0.0.1 compiles under any current grant and validates exactly from then on while the grant is current |
| Revalidation.ValidatedPlanIsReserved | src/mercury/planner.py:1361-1452 | Whatever the validator accepts, from whatever source, reserves exactly its sums, has distinct steps, and stays inside loopback and grant |
| Authorization.AuthorizedPlanValidates | src/mercury/planner.py:1462-1518 | An authorised plan passes every later boundary exactly from its authorisation on while its scope is current |
| Authorization.AuthorizesExactly | src/mercury/planner.py:1462-1492 | A plan is authorised exactly if it validates and the supplied phrases are those of its required confirmations, each once, and no other |
| Authorization.RevalidatesExactly | src/mercury/planner.py:1495-1518 | An authorised plan is accepted again exactly if it validates, its authorisation lies between its creation and now, and its phrases are exactly the required ones |
| Preflight.PreflightSound | src/mercury/planner.py:724-782 | Under any resolver a prepared address is the digest-bound one, was just answered, and is in scope; the scope is current; and the octets are none for a payload without a digest and otherwise of exactly the bound length and digest |
| Preflight.PreparedExactly | src/mercury/planner.py:724-782 | Any step of any plan is prepared exactly if its octets are approved, the scope is current, its target and kind are covered, and, if it carries an address for a hostname, that name still resolves to it within the planned number of addresses |
| Preflight.ChangeReported | src/mercury/planner.py:752-782 | A change of names is reported exactly if the canonical answer is another list than the planned one; without one the answer is exactly the planned addresses |
| Preflight.PreflightExactlyWhenUnchanged | src/mercury/planner.py:724-782 | All steps of a hostname in a Cartesian plan pass exactly if the scope is current, the octets are the approved ones, the resolver names the planned set, in any order and multiplicity, and the grant covers the probe kinds |
| Preflight.NamelessPassesExactly | src/mercury/planner.py:724-782 | A step of an address or network target in a Cartesian plan passes exactly if the scope is current, the octets are the approved ones, and that target is loopback or the grant covers its probe kind |
| Preflight.SparseNamelessPasses | src/mercury/planner.py:724-782 | In a sparse plan a step without a hostname passes exactly if the scope is current and the octets are the approved ones |
| PlanWitnesses.OfficePlanNeverStarts | src/mercury/planner.py:724-782 | A plan that compiles, validates at every later time, and has its every step refused |
| PairedListener.ClaimsResolveOnce | src/mercury/paired.py:1321-1498 | In every interleaving each step has nothing, an arrival, an arrival and its reply, or one silence record; at most two observations; completed by its only claimant unless that one failed or is busy |
| PairedListener.FaultsExactly | src/mercury/paired.py:1321-1498 | The task sees a lifecycle error exactly when the silence pass took a step that was not admitted |
| PairedListener.StopExactly | src/mercury/paired.py:1352-1368 | One pass of stop claims the TCP step; it leaves the UDP step unclaimed exactly when nobody had claimed either and the record of TCP silence raised; afterwards a step without a busy handler is completed exactly when it is claimed and its claimant did not fail |
| PairedListener.StopResolves | src/mercury/paired.py:1352-1368 | If nothing failed and no handler is busy, stop leaves every step completed |
| PairedListener.SecondPassClaims | src/mercury/paired.py:1371-1376 | A second pass, as after expiry, reaches the step that a failure kept the first one from |
| PairedListener.FailedSilenceLeavesUdpOpen | src/mercury/paired.py:1480-1491 | A run of any lease with room for two in which a refused record of TCP silence leaves the admitted UDP step unclaimed and open |
| PairedListener.AbortedStartFaults | src/mercury/paired.py:1321-1326 | A start cancelled during its first admission leads to such an error |
| PairedListener.PairRefusal | src/mercury/tasks.py:600-680 | For the listener's evidence the guards of the task reduce to: the step is admitted and open |
| ListenerEvidence.EvidenceExactly | src/mercury/paired.py:1388-1491 | In every interleaving each observation is the evidence of one step and phase (peer_observed_arrival inbound; tcp_connected or udp_application_reply in reverse; timeout or silent outbound) with that step's probe, address, attempt, identifier and labels, and each phase gone through left one |
| ListenerEvidence.StagesForward | src/mercury/paired.py:1321-1350 | The listener moves forward through admitting, opening and serving, aborts only before its sockets are open, and opens only with both steps admitted |
| ListenerEvidence.StaleLeaseIsSilent | src/mercury/paired.py:1321-1326 | Started on a lease that is not current, it records, claims and admits nothing, whatever follows |
| PairedServices.PairedListenerService.ClaimStep | src/mercury/paired.py:1493-1498 | The first caller for a step gets it, nobody else |
| PairedServices.PairedListenerService.HandleTcp | src/mercury/paired.py:1388-1408 | A matched preface claims and records, or does nothing |
| PairedServices.PairedListenerService.ReplyTcp | src/mercury/paired.py:1408-1416 | The reply completes the step, or its failure leaves it claimed |
| PairedServices.PairedListenerService.HandleDatagram | src/mercury/paired.py:1429-1449 | A matched datagram claims, records twice and completes without suspending |
| PairedServices.PairedListenerService.CompleteMissing | src/mercury/paired.py:1480-1491 | Each unclaimed step, TCP before UDP, gets one silence record and is completed; the first failure ends the pass |
| CoverageReceiver.FirstAcceptableOnly | src/mercury/paired.py:2158-2187 | Over any traffic a receiver records and answers exactly the first acceptable datagram |
| CoverageReceiver.OwnQuestionsOnly | src/mercury/paired.py:2158-2171 | Of all datagrams a DNS receiver accepts exactly queries with its own question, under any identifier and counts, from its peer before expiry |
| CoverageReceiver.OwnTagOnly | src/mercury/paired.py:2158-2174 | A tagged receiver accepts exactly the tag of its own correlation, from its peer before expiry |
| CoverageReceiver.CoverageReceiverService.ReceiveDatagram | src/mercury/paired.py:2158-2187 | The service's fields follow that specification |
| PeerReplay.NonceCache.Admit | src/mercury/peer.py:686-698 | The nested deletions and the insertion leave exactly the specified cache |
| PeerReplay.CacheExact | src/mercury/peer.py:681-698 | A nonce is held unexpired exactly when a frame with it was accepted and has not expired, so no live nonce is evicted |
| PeerReplay.AcceptedExactly | src/mercury/peer.py:775-804 | A connection is accepted exactly if it is genuine, no accepted frame with its nonce is unexpired, and fewer than 1024 nonces of the identity are live |
| PeerReplay.AuthenticatesExactly | src/mercury/peer.py:775-796 | A frame authenticates exactly if it is issued at most 30 seconds ahead and not expired at the first reading, of the configured identity, and its certificate and token pass |
| PeerReplay.PurgedIsLive | src/mercury/peer.py:686-693 | What the cache holds after a purge is exactly the live nonces of accepted frames |
| PeerReplay.ReplayStraddlesExpiry | src/mercury/peer.py:775-804 | A second acceptance needs the expiry to fall between the connection's two clock readings |
| PeerReplay.AtMostOnce | src/mercury/peer.py:775-804 | With one reading for each connection no frame is accepted twice, in runs of any length |
| PeerReplay.ReplayAcceptedAcrossExpiry | src/mercury/peer.py:776-804 | With two readings it happens |
| PeerReplay.CapacityKept | src/mercury/peer.py:694-698 | No identity ever holds more than the capacity |
| PeerReplay.HeldBriefly | src/mercury/peer.py:508-509 | A full cache has room again once skew plus lifetime have passed |
| WireFormats.TcpTagsPrefixFree | src/mercury/paired.py:1275-1280 | No admission preface begins with another one |
| WireFormats.TcpAdmission | src/mercury/paired.py:1397-1400 | Once it has read as many octets as its own preface has, the listener accepts exactly its own correlation, whatever follows the preface that was sent |
| WireFormats.UdpTagInjective | src/mercury/paired.py:1263-1272 | A datagram determines nonce and tag and is always within 1400 octets |
| WireFormats.CoverageTagPrefix | src/mercury/paired.py:2045-2047 | A coverage tag begins with another exactly when profiles agree and the correlation begins with the other |
| WireFormats.CoverageTagsPrefixFree | src/mercury/paired.py:2045-2047 | Among correlations of one length the tags are prefix-free |
| WireFormats.CoverageAdmission | src/mercury/paired.py:2143-2145 | A receiver also accepts longer correlations that begin with its own |
| WireFormats.ReplyAcceptsExactly | src/mercury/paired.py:2271-2280 | A DNS receiver answers exactly its own question, whatever identifier and counts |
| WireFormats.ReplyMatchesQuery | src/mercury/paired.py:2271-2308 | The reply for one correlation accepts the query for another exactly when they are equal |
| WireFormats.ReplyReadsBack | src/mercury/paired.py:2281-2283 | Read by an independent RFC 1035 reader, the reply is the expected message, pointer resolved, exactly for labels of at most 63 octets |
| WireFormats.FrameRoundTrip | src/mercury/paired.py:1778-1781 | Two-octet framing of queries and replies is undone, whatever follows |
| Codec.FreezeUndoesThaw | src/mercury/models.py:235-256 | Freezing undoes thawing exactly on values of bounded depth and keys |
| Codec.ThawUndoesFreeze | src/mercury/codec.py:40-47 | Thawing undoes freezing on JSON values, and freezing gives frozen values |
| DocumentRules.FreezesExactly | src/mercury/models.py:235-256 | A value freezes exactly if it has at most 33 levels of lists and objects and keys of at most 256 characters |
| Codec.EncodesExactly | src/mercury/codec.py:50-356 | A result encodes exactly when its two instants and those of its observations are in the UTC calendar |
| Codec.ResultRoundTrip | src/mercury/codec.py:338-424 | Every result that can exist decodes to itself exactly when it encodes and has at most 256 warnings |
| Codec.EarlyResultLost | src/mercury/codec.py:50-66 | A document that decodes to a result that does not encode |
| Codec.ManyWarningsLost | src/mercury/codec.py:289-335 | One result with 256 warnings that round-trips, and one with 257 that encodes and is refused |
| Codec.DecodedIsValid | src/mercury/codec.py:358-424 | Whatever decodes is a result that can exist, and it encodes and round-trips exactly when its instants are in the UTC calendar |
| DocumentRules.DecodesExactly | src/mercury/codec.py:358-424 | A document decodes to a result exactly if it has every member and no other, down to the last nested object, each spells the field, and the result holds together: bounds, known words, distinct identifiers, known citations |
| DocumentRules.ObservationExactly | src/mercury/codec.py:173-210 | The same for one observation |
| DocumentRules.ConclusionExactly | src/mercury/codec.py:226-266 | The same for one conclusion |
| DocumentRules.ConfigExactly | src/mercury/codec.py:300-335 | The same for the effective configuration |
| Codec.EffectiveRoundTrip | src/mercury/codec.py:289-335 | The configuration round-trips exactly within the decoder's bound on warnings |

## Left out

- `compile_internal_mapping`: it builds specs in nested loops and hands them to the sparse compiler, whose theorems cover its result.
- Field-by-field constructor validation of steps and specs (types, text lengths, kind and port combinations): one-branch facts; specs enter the sparse compiler as already constructed.
- Which listener sockets are open at each moment: over-approximated, so a handler may act at any time after the sockets were opened.
- `CoverageLeaseRegistry` and the TCP profiles of `CoverageReceiverService`: start, stop and lookup of services; a TCP receiver may answer more peers than the one it records.
- Correlation ownership in the peer listener: it serves one configured identity, so owner and caller can only be equal.
- The full-scan pool as an object: its workers are a state machine, because they only share an iterator; a failed worker leaves its step admitted while the others go on.
- `TaskService.submit`, `wait` and diagnosis grouping: argument checks and look-ups; only the fallback measured at submission enters the model.
- SQLite itself, schema migration and `get_task`/`list_tasks` paging: a transaction is one atomic step on rows and events.
- OutputCeilings.CeilingKeptExactly: for runs without a deadline; a plan whose pacing needs longer than `max_duration_s` need not reach the counters that its condition reserves for.
- Slots of multi-address diagnosis plans: `resolver.py` sorts addresses as text and the policy numerically, so preflight completeness is stated for Cartesian plans only.
- `Codec.ResultRoundTrip`: the vocabularies and the table of allowed dispositions are parameters; the spelling of instants is a parameter that writes exactly those of the UTC calendar; a datetime is the instant it denotes, so two offsets of one instant are equal; field names are an enumeration.
- Escaping inside JSON strings: scalars arrive encoded.
- Sockets, TLS contexts, subprocess adapters, CLI, web interface and reports.
- `classify_diagnosis`, conclusion derivation and exit codes: case tables.
