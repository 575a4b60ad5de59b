/**
 The run registry (name -> run record) and the transitions of a run's step:
 start, evaluation finished, sync finished or failed, cancel, delete.

 A Go run record is identified by its pointer; here a run is identified by the
 load counter of the entry it was started for, which Inv shows to be unique
 among the records and never above the controller's counter.
 */
module Registry {
  import opened Types
  import opened LoadFinish
  import opened Status

  /** The record startRunAsync creates: running, seeded with the previous run's load result. */
  function NewRun(spec: Spec, entry: BuildEntry, prev: Option<Run>, now: Instant): (run: Run)
    ensures run.step == Running && !run.canceled
    ensures run.entry == entry && run.spec == spec
    ensures run.startArgs == entry.args && run.startTime == now
    ensures prev.Some? ==> run.tlr == prev.value.tlr
    ensures prev.None? ==> run.tlr.None?
  {
    Run(Running, false, spec, entry, if prev.Some? then prev.value.tlr else None, now, entry.args, ZeroTime)
  }

  /** startRunAsync: the new record replaces whatever was stored under `nn`. */
  function StartRun(runs: map<Name, Run>, nn: Name, spec: Spec, entry: BuildEntry, prev: Option<Run>, now: Instant)
    : (runs': map<Name, Run>)
    ensures runs'.Keys == runs.Keys + {nn}
    ensures forall k :: k in runs && k != nn ==> runs'[k] == runs[k]
    ensures runs'[nn] == NewRun(spec, entry, prev, now)
  {
    runs[nn := NewRun(spec, entry, prev, now)]
  }

  /** The stop check of a running run: a stop event at or after its start cancels it. */
  function CancelIfStopped(run: Run, lastStop: Time): (r: Run)
    ensures r.canceled <==> run.canceled || lastStop >= run.startTime
    ensures r.(canceled := run.canceled) == run
  {
    if lastStop >= run.startTime then run.(canceled := true) else run
  }

  /** The main Tiltfile is the one that gets the onboarding hint. */
  predicate IsMain(nn: Name) {
    nn.name == MainTiltfileName
  }

  /** The record at `nn` is the one started for load `id`. */
  predicate IsCurrent(runs: map<Name, Run>, nn: Name, id: nat) {
    nn in runs && runs[nn].entry.loadCount == id
  }

  /** The record at `nn` is the run started for load `id`, and it is still evaluating. */
  predicate Installable(runs: map<Name, Run>, nn: Name, id: nat) {
    IsCurrent(runs, nn, id) && runs[nn].step == Running
  }

  /**
   The end of a run: its load result, finalised, is installed and the step
   becomes Loaded. `sawCancel` is what the run read from its context before
   taking the lock, so a cancel that lands after that read is not seen. A run
   whose record has since been deleted or replaced writes into a record that
   is no longer in the registry, so nothing changes.
   */
  function CompleteRun(runs: map<Name, Run>, nn: Name, id: nat, loaded: LoadResult,
                       dockerErr: Option<string>, sawCancel: bool)
    : (runs': map<Name, Run>)
    ensures runs'.Keys == runs.Keys
    ensures forall k :: k in runs && k != nn ==> runs'[k] == runs[k]
    ensures !Installable(runs, nn, id) ==> runs' == runs
    ensures Installable(runs, nn, id) ==>
      && runs'[nn].step == Loaded
      && runs'[nn].tlr == Some(FinalizeResult(loaded, IsMain(nn), dockerErr, sawCancel))
      && runs'[nn].(step := runs[nn].step, tlr := runs[nn].tlr) == runs[nn]
    ensures Installable(runs, nn, id) && sawCancel ==> runs'[nn].tlr.value.error == Some(BuildCanceled)
  {
    if Installable(runs, nn, id) then
      var run := runs[nn];
      runs[nn := run.(tlr := Some(FinalizeResult(loaded, IsMain(nn), dockerErr, sawCancel)), step := Loaded)]
    else runs
  }

  /** Whether the owned-object update may enable or disable resources. */
  function ChangeEnabledResources(entry: BuildEntry, tlr: Option<LoadResult>): (change: bool) {
    entry.argsChanged && tlr.Some? && tlr.value.error.None?
  }

  const SyncPrefix := "Failed to update API server: "

  /**
   Registry after handleLoaded, the error returned to the reconcile caller,
   and whether the owned-object update was asked to change enabled resources.
   */
  datatype Synced = Synced(runs: map<Name, Run>, err: Option<string>, changeEnabled: bool)

  /**
   handleLoaded. `syncErr` is what the owned-object update reports. On failure
   nothing changes, so the run stays Loaded and the sync is retried; on
   success the run is Done and finished at `now`.
   */
  function HandleLoaded(runs: map<Name, Run>, nn: Name, syncErr: Option<string>, now: Instant): (s: Synced)
    // Enabled resources may change only for a run whose args changed and whose load succeeded.
    ensures s.changeEnabled ==>
      nn in runs && runs[nn].entry.argsChanged && runs[nn].tlr.Some? && runs[nn].tlr.value.error.None?
    ensures nn in runs && runs[nn].entry.argsChanged && runs[nn].tlr.Some? && runs[nn].tlr.value.error.None?
            ==> s.changeEnabled
    ensures syncErr.Some? ==> s.runs == runs && s.err == Some(SyncPrefix + syncErr.value)
    ensures syncErr.None? ==> s.err.None?
    ensures s.runs.Keys == runs.Keys
    ensures forall k :: k in runs && k != nn ==> s.runs[k] == runs[k]
    ensures syncErr.None? && nn in runs ==>
      s.runs[nn].step == Done && s.runs[nn].finishTime == now
      && s.runs[nn].(step := runs[nn].step, finishTime := runs[nn].finishTime) == runs[nn]
  {
    var change := nn in runs && ChangeEnabledResources(runs[nn].entry, runs[nn].tlr);
    if syncErr.Some? then Synced(runs, Some(SyncPrefix + syncErr.value), change)
    else if nn in runs then Synced(runs[nn := runs[nn].(step := Done, finishTime := now)], None, change)
    else Synced(runs, None, change)
  }

  /** Registry after deleteExistingRun, and the removed record with its context canceled. */
  datatype Removal = Removal(runs: map<Name, Run>, canceled: Option<Run>)

  /** deleteExistingRun: a no-op for an unknown name, otherwise remove and cancel exactly that run. */
  function DeleteExistingRun(runs: map<Name, Run>, nn: Name): (d: Removal)
    ensures nn !in runs ==> d == Removal(runs, None)
    ensures d.runs.Keys == runs.Keys - {nn}
    ensures forall k :: k in d.runs ==> d.runs[k] == runs[k]
    ensures nn in runs ==> d.canceled == Some(runs[nn].(canceled := true))
  {
    if nn !in runs then Removal(runs, None)
    else Removal(runs - {nn}, Some(runs[nn].(canceled := true)))
  }

  /** What every stored record satisfies. */
  predicate RunInv(nn: Name, run: Run, loadCount: nat) {
    && run.step != StepNone
    && run.startTime > ZeroTime
    && 1 <= run.entry.loadCount <= loadCount
    && run.entry.name == nn.name
    && run.startArgs == run.entry.args
    && (run.step == Loaded || run.step == Done ==> run.tlr.Some?)
  }

  /** The registry invariant: every record is well formed and records have distinct load counters. */
  predicate Inv(c: Controller) {
    && (forall nn :: nn in c.runs ==> RunInv(nn, c.runs[nn], c.loadCount))
    && (forall a, b :: a in c.runs && b in c.runs && a != b ==>
          c.runs[a].entry.loadCount != c.runs[b].entry.loadCount)
  }

  /** Every record of a controller satisfying Inv can be projected onto a status. */
  lemma InvProjectable(c: Controller, nn: Name)
    requires Inv(c) && nn in c.runs
    ensures Projectable(c.runs[nn])
  {
  }

  /** The end of run `id` for `nn` at controller level. */
  function Complete(c: Controller, nn: Name, id: nat, loaded: LoadResult, dockerErr: Option<string>, sawCancel: bool)
    : (c': Controller)
    requires Inv(c)
    ensures Inv(c')
    ensures c'.loadCount == c.loadCount
    ensures c'.runs == CompleteRun(c.runs, nn, id, loaded, dockerErr, sawCancel)
  {
    c.(runs := CompleteRun(c.runs, nn, id, loaded, dockerErr, sawCancel))
  }

  /** With no stop event (the zero time) a running run is never canceled, since it started at a real instant. */
  lemma NoStopEventKeepsRun(c: Controller, nn: Name)
    requires Inv(c) && nn in c.runs
    ensures CancelIfStopped(c.runs[nn], ZeroTime) == c.runs[nn]
  {
  }
}
