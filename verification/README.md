# Tiltfile reconciler: run state machine and trigger logic

A Dafny model of the controller that runs Tiltfiles. On every reconcile it does four things:

- It decides whether the Tiltfile must be loaded again, and for which build reasons.
- It starts a run. The run evaluates the file off the control loop and finalises the result's error.
- It syncs a loaded result into the owned API objects.
- It projects the run's step onto the Tiltfile status: Waiting, Running or Terminated.

The model is functional. The run registry is a `map<Name, Run>` inside a `Controller` value, together with the load counter. Every transition is a pure function over that value:

- start a run;
- finish an evaluation;
- finish or fail a sync;
- cancel on a stop event;
- delete.

A whole trace of reconciles interleaved with run completions is a fold over those transitions. The run goroutine takes the same reconciler mutex when it installs its result (reconciler.go:341-344), so that install and a reconcile never overlap, and an atomic step models the install exactly. The run reads its context's cancel state earlier, at reconciler.go:337, before it waits for the mutex. A reconcile can cancel the run in between. The completion event therefore carries what the run read (`sawCancel`), and that value can be stale. `Reconciler.StopCancelsRun` covers a read made after the stop. `Reconciler.LateStopIsNotReported` covers a read made before it.

A Go run record is identified by its pointer. The model identifies it by the load counter of its build entry. The registry invariant `Registry.Inv` proves that counter unique among the records and never above the controller's counter. A goroutine whose record has been deleted or replaced writes into a detached record. `Reconciler.ReplayFreshRuns` shows that a later run never takes over an earlier run's counter: after any trace, every record keeps its counter or carries one issued during the trace. `Reconciler.StaleCompletionIsIgnored` proves the consequence: the completion of a detached run changes nothing.

Files: `types.dfy` (vocabulary), `trigger.dfy` (needsBuild), `loadfinish.dfy` (requiresDocker and result-error finalisation), `status.dfy` (status projection), `registry.dfy` (run records and step transitions), `reconciler.dfy` (Reconcile dispatch, enqueueTriggerQueue, traces).

Abstract inputs:

- Timestamps are naturals, and 0 stands for the zero `time.Time`. A reading of the clock is an `Instant`, a timestamp above 0. So a run always starts at a real time. `Registry.NoStopEventKeepsRun` shows the consequence: "no stop event yet" (the zero time) never cancels a stored run.
- The answers of collaborators are parameters, gathered per reconcile in `Reconciler.Env`:
  - the API fetch;
  - the owned-object updates;
  - the last stop and restart events;
  - the files changed since the last start;
  - the trigger queue;
  - the log checkpoint;
  - the Docker connectivity check;
  - the status update;
  - the clock.
- The loader's result is a `LoadResult` value given to `Registry.Complete`.

Three points where a reader could expect something other than what the code does. The model follows the code:

- One might expect a first reconcile to leave the Tiltfile Waiting with no run. In the code, a missing record reads as step None (reconciler.go:143-147), and `needsBuild` then always returns an Init entry (reconciler.go:229-230). So the first reconcile starts the run and writes a Running status (`Reconciler.FirstReconcileStartsRun`).
- One might expect a stop event to cancel a run only when it fires strictly after the run's start. The code uses `AfterOrEqual` (reconciler.go:154), so a stop event at the very start time cancels too (`Registry.CancelIfStopped`).
- One might expect a single notion of "the arguments changed". The code has two:
  - The `TiltfileArgs` reason is raised only after a real start, that is, with a non-zero last start time (reconciler.go:240-242).
  - The entry's `argsChanged` flag compares against an empty argument list on the first load (reconciler.go:222, 265). This flag drives enabling and disabling resources (reconciler.go:359).

  Both are modelled as written.

## Model

| member | source | states |
|---|---|---|
| Trigger.NeedsBuild | internal/controllers/core/tiltfile/reconciler.go:208-267 | no entry exactly when there is a prior run, no changed file, no restart event after the last start, no argument change after a real start and no queue reason; then the counter is unchanged; otherwise the counter rises by one and the entry carries it; each flag is present iff its own condition holds or the queue carries it; the entry carries the spec's args and path, files only after a prior run, argsChanged iff the args differ from the last start args |
| Trigger.RestartReason | internal/controllers/core/tiltfile/reconciler.go:229-238 | Init iff no prior run; ChangedFiles iff a prior run and a non-empty changed-file list; TriggerUnknown iff a prior run, no changed file and a restart strictly after the last start; never both of the latter |
| Trigger.ArgsReason | internal/controllers/core/tiltfile/reconciler.go:240-242 | TiltfileArgs iff the last start time is non-zero and the args differ |
| Trigger.FirstLoadAlwaysBuilds | internal/controllers/core/tiltfile/reconciler.go:220-230 | with no prior run an entry is always issued, with reason Init and no changed files, and TiltfileArgs only if the queue carries it |
| Trigger.ChangedFilesExcludesUnknown | internal/controllers/core/tiltfile/reconciler.go:231-237 | after a run, and with a queue reason naming neither flag, ChangedFiles iff files changed, TriggerUnknown only with no changed file and a newer restart, never both |
| Trigger.NoSpuriousRebuild | internal/controllers/core/tiltfile/reconciler.go:229-250 | after a run, with no changed file, no newer restart, the same args and no queue entry, nothing is issued and the counter is unchanged |
| Trigger.IssuedCountersIncrease | internal/controllers/core/tiltfile/reconciler.go:248-264 | over any series of decisions the issued counters are strictly increasing, above the start value, and the counter ends one higher per issued entry |
| LoadFinish.RequiresDocker | internal/controllers/core/tiltfile/reconciler.go:455-469 | true iff some manifest uses Docker Compose or some image target of some manifest is a Docker build |
| LoadFinish.SelectedOrchestrator | internal/controllers/core/tiltfile/reconciler.go:323-327 | Kubernetes whenever some manifest uses it; Docker Compose only when no manifest uses Kubernetes and some uses Compose; otherwise nothing is selected |
| LoadFinish.ComposeSelectionNeedsDocker | internal/controllers/core/tiltfile/reconciler.go:323-335 | selecting Docker Compose implies the Docker connectivity check is made |
| LoadFinish.FinalizeResult | internal/controllers/core/tiltfile/reconciler.go:316-339 | only the error changes; cancellation always gives "build canceled"; an evaluation error is never overwritten except by cancellation; the onboarding hint iff uncanceled, no error, zero manifests and the main Tiltfile; a Docker error iff nothing else explains it, Docker is needed and the check failed; no error iff none of these |
| Types.ErrorText | internal/controllers/core/tiltfile/reconciler.go:319-339 | the message of each error origin: the loader's text, the onboarding hint with its tutorial link, the Docker error wrapped with its prefix, "build canceled"; non-empty except an empty loader message |
| Status.StatusOf | internal/controllers/core/tiltfile/reconciler.go:501-528 | exactly one sub-state is set; Running for steps Running and Loaded with the start time; Terminated iff Done, with the start and finish times and an error that is empty iff the result has no error (or an empty loader message); otherwise Waiting with reason "Unknown" |
| Status.TerminatedError | internal/controllers/core/tiltfile/reconciler.go:509-513 | empty when the result has no error, non-empty when it has one with text |
| Status.CanceledRunReportsCancellation | internal/controllers/core/tiltfile/reconciler.go:509-520 | a done run whose result was canceled reports Terminated with exactly "build canceled" |
| Registry.NewRun | internal/controllers/core/tiltfile/reconciler.go:270-288 | a new record is Running and not canceled, starts at now with the entry's args, and is seeded with the previous run's load result |
| Registry.StartRun | internal/controllers/core/tiltfile/reconciler.go:279-289 | the new record replaces whatever was under the name; every other name keeps its record |
| Registry.CancelIfStopped | internal/controllers/core/tiltfile/reconciler.go:149-157 | the run becomes canceled iff a stop event is at or after its start (or it already was); nothing else changes |
| Registry.CompleteRun | internal/controllers/core/tiltfile/reconciler.go:337-344 | when the name's record is the run's own and still Running, it becomes Loaded with the result finalised under the cancel state the run read before taking the lock, keeping all its other fields; a read cancel gives "build canceled"; otherwise nothing changes; other names are untouched |
| Registry.Complete | internal/controllers/core/tiltfile/reconciler.go:294-348 | a run completion keeps the registry invariant and the load counter |
| Registry.HandleLoaded | internal/controllers/core/tiltfile/reconciler.go:359-401 | the owned-object update is asked to change enabled resources iff the run's args changed and its result has no error; a failed update changes nothing (the run stays Loaded) and returns the wrapped error; success makes the run Done with finish time now, keeping its other fields; other names are untouched |
| Registry.NoStopEventKeepsRun | internal/controllers/core/tiltfile/reconciler.go:149-157 | under the registry invariant the zero stop time never cancels a stored run, because every run started at a real instant |
| Registry.DeleteExistingRun | internal/controllers/core/tiltfile/reconciler.go:405-412 | no-op for an absent name; otherwise exactly that key is removed and returned canceled; all other records are unchanged |
| Registry.InvProjectable | internal/controllers/core/tiltfile/reconciler.go:509-513 | under the registry invariant every record's status can be projected (a done run has a result) |
| Reconciler.WriteStatus | internal/controllers/core/tiltfile/reconciler.go:185-198 | the projection is written exactly when a record exists and it differs from the stored status; then a failed update is returned instead; otherwise no error and nothing written |
| Reconciler.Delete | internal/controllers/core/tiltfile/reconciler.go:118-128 | the name's record is dropped, the others kept, and the owned-object cleanup error is returned |
| Reconciler.ReconcileRunning | internal/controllers/core/tiltfile/reconciler.go:149-198 | a running run is only subjected to the stop check: a failed stop lookup changes nothing and is returned; otherwise the record is replaced by its stop-checked self, and the reconcile returns no error except a failed status update, writing the projection exactly when it differs |
| Reconciler.StartIfNeeded | internal/controllers/core/tiltfile/reconciler.go:170-173 | a new run starts iff the trigger decision issues an entry, and it is exactly the record started for that entry at now, with the decision's counter; otherwise the registry and counter are unchanged; the invariant is kept |
| Reconciler.ReconcileIdle | internal/controllers/core/tiltfile/reconciler.go:159-198 | with no run or a finished one, a failed restart or queue lookup changes nothing and is returned; otherwise a new run starts iff the trigger decision issues an entry (else the registry is unchanged), and the reconcile returns no error except a failed status update, writing the projection exactly when it differs |
| Reconciler.ReconcileLoaded | internal/controllers/core/tiltfile/reconciler.go:176-198 | a loaded run is synced with the enabled-resources flag of its entry and result; a failed sync changes nothing and is returned; otherwise the run is Done, and the reconcile returns no error except a failed status update, writing the projection exactly when it differs |
| Reconciler.ReconcileFound | internal/controllers/core/tiltfile/reconciler.go:143-198 | dispatch on the step found: keeps the invariant and other names; a run starts only from no run or a Done one; a Running or Loaded run is never replaced; once the step's own calls succeed, no error but a failed status update, and the projection written exactly when it differs |
| Reconciler.Reconcile | internal/controllers/core/tiltfile/reconciler.go:105-199 | keeps the registry invariant; the counter moves by at most one and only when a run starts; other names are untouched; a fetch failure or a failed first bootstrap changes nothing; deletion drops the run and returns the cleanup error; from no run or a Done one a run starts iff the trigger decision issues an entry; a Running run only gets the stop check; a Loaded run is synced; a Running or Loaded run is never replaced; when every call for the step found succeeds, the reconcile returns no error except a failed status update, and writes the projection of the resulting record exactly when it differs from the stored one |
| Reconciler.EnqueueTriggerQueue | internal/controllers/core/tiltfile/reconciler.go:420-445 | no requests unless the object is the trigger-queue config map; then the queued names, in order and without namespace, that have a record |
| Reconciler.KnownQueuedMembers | internal/controllers/core/tiltfile/reconciler.go:430-444 | a name is requested iff it has no namespace, is queued and has a run record |
| Reconciler.KnownQueuedLength | internal/controllers/core/tiltfile/reconciler.go:436-444 | never more requests than queued names |
| Reconciler.Apply | internal/controllers/core/tiltfile/reconciler.go:341-347 | a reconcile or a completion keeps the invariant, never lowers the counter, and every record keeps its counter or gets a fresher one |
| Reconciler.Replay | internal/controllers/core/tiltfile/reconciler.go:105-108 | any interleaving of reconciles and completions keeps the invariant and never lowers the counter |
| Reconciler.ReachableInv | internal/controllers/core/tiltfile/reconciler.go:91-102 | every controller reachable from the empty registry satisfies the invariant |
| Reconciler.ReplayFreshRuns | internal/controllers/core/tiltfile/reconciler.go:255-264 | after any trace a record keeps its counter or carries one issued during the trace |
| Reconciler.StaleCompletionIsIgnored | internal/controllers/core/tiltfile/reconciler.go:341-344 | the completion of a run whose record was already gone or replaced never changes the registry, whatever happens in between |
| Reconciler.FirstReconcileStartsRun | internal/controllers/core/tiltfile/reconciler.go:134-174 | the first reconcile of a Tiltfile starts a Running run with reason Init and no previous result, and writes a Running status with the start time |
| Reconciler.SyncFailureIsRetried | internal/controllers/core/tiltfile/reconciler.go:176-183 | a failed sync leaves the controller unchanged and returns the wrapped error; with a working update the run becomes Done with the same result |
| Reconciler.StopCancelsRun | internal/controllers/core/tiltfile/reconciler.go:149-157 | a stop at or after a running run's start cancels its record; if the run reads its context after that, its completion and a successful sync give Terminated with exactly "build canceled", whatever the loader returned |
| Reconciler.LateStopIsNotReported | internal/controllers/core/tiltfile/reconciler.go:337-344 | if the run read its context before the stop reconcile canceled it, the record ends Done and canceled, yet reports Terminated with the loader's own error, not "build canceled" |
| Reconciler.EmptyMainTiltfileReportsHint | internal/controllers/core/tiltfile/reconciler.go:319-321 | an uncanceled, error-free load of the main Tiltfile with no manifests, once synced, reports Terminated with exactly the onboarding hint |
| Reconciler.ChangedArgsReachEnabledResources | internal/controllers/core/tiltfile/reconciler.go:240-265 | a finished Tiltfile whose args changed is reloaded with reason TiltfileArgs; the sync of that load asks to change enabled resources iff the run did not see a cancel, given an error-free load that Docker does not fail |

## Left out

- Goroutine launch, mutexes, `context.WithCancel` and `sync.Once`: the run is an explicit completion event, cancellation is a flag on the record, and reconciles and completions are atomic steps.
- API-server and controller-runtime calls (`Get`, `Status().Update`, `updateOwnedObjects`, `CreateBuilder`, the indexer, the requeuer): each is an answer in `Reconciler.Env` (a value, or an error message). The requeue requests are not modelled, because a requeue only schedules another reconcile.
- `trigger.FilesChanged`, `LastRestartEvent`, `LastStopEvent`, the configmap trigger-queue parsing (`InTriggerQueue`, `TriggerQueueReason`, `NamesInTriggerQueue`): these are abstract inputs. The queue is a map from name to the reason it carries. That reason is an arbitrary set of flags, so the flag-exclusivity properties assume the queue names neither flag.
- The Tiltfile loader (`tfl.Load`): its result is an input of the completion event.
- `HasOrchestrator` and `IsDockerBuild` live in packages that are not part of this model. A manifest here carries at most one orchestrator and a Docker-build flag per image target.
- The constants `MainTiltfileManifestName` ("(Tiltfile)") and `TriggerQueueName` ("tilt-trigger-queue") come from packages that are not part of this model.
- Store `Dispatch` actions, logging, the log-store checkpoint object, the Docker client's side effects (`SetOrchestrator`, `CheckConnected`, `ServerVersion`) and telemetry: these have no logic of their own. The selected orchestrator is computed (`LoadFinish.SelectedOrchestrator`) but not applied anywhere.
- The wall clock: each reconcile has one abstract `now` (an `Instant`), used both for a new run's start time and for a sync's finish time.
- Registry.CompleteRun: the run's context read (reconciler.go:337) is not a separate step. Its outcome is the `sawCancel` argument of the completion, chosen freely by the trace. So the model allows every ordering of that read against a stop reconcile, but it does not connect the value to the record's `canceled` flag.
- Reconciler.StopCancelsRun: "build canceled" is promised only when the run's context read follows the stop reconcile. `Reconciler.LateStopIsNotReported` shows the other ordering, which the source's locking does not exclude.
- The run record's `spec` snapshot and `ctx` logger wiring are kept or dropped as data only. The `spec` snapshot is stored; the logger wiring has no logic.
- `indexTiltfile` and `defaultK8sConnection`: these are constant helpers with no decision logic.
- The removal of a name from the trigger queue after its run: this happens outside this controller.
- Other files of the repository (the container build test and the metrics Starlark builtin): these are not part of the run state machine.
