/**
 One reconcile of a Tiltfile: fetch, deletion, the stop check of a running
 run, the trigger decision and start of a new run, the sync of a loaded run,
 and the status write-back; plus the trigger-queue mapping and whole traces of
 reconciles interleaved with run completions.
 */
module Reconciler {
  import opened Types
  import opened Trigger
  import opened LoadFinish
  import opened Status
  import opened Registry

  /** The API server's answer to the fetch of the Tiltfile. */
  datatype Fetch = Found(tf: Tiltfile) | NotFound | FetchFailed(message: string)

  /** The last restart event and the files changed since the last start. */
  datatype RestartEvent = RestartEvent(time: Time, changedFiles: seq<string>)

  /** What the collaborators answer during one reconcile. */
  datatype Env = Env(
    fetch: Fetch,
    cleanupErr: Option<string>,       // owned-object removal after deletion
    bootstrapErr: Option<string>,     // owned-object bootstrap on the first reconcile
    lastStop: Fallible<Time>,         // last stop event
    restart: Fallible<RestartEvent>,  // last restart event and changed files
    queue: Fallible<TriggerQueue>,    // the manual trigger queue
    checkpoint: nat,                  // log-store checkpoint
    syncErr: Option<string>,          // owned-object update after a load
    statusErr: Option<string>,        // status update
    now: Instant)

  /**
   The controller after a reconcile, the error returned, the status written
   (if any), and the enabled-resources flag the owned-object update after a
   load was called with (None when no such update was made).
   */
  datatype Tick = Tick(state: Controller, err: Option<string>, written: Option<TiltfileStatus>,
                       syncChange: Option<bool>)

  function Get(runs: map<Name, Run>, nn: Name): (run: Option<Run>) {
    if nn in runs then Some(runs[nn]) else None
  }

  /**
   The outcome of the status write-back once every earlier call of the
   reconcile succeeded: with a record whose projection differs from the stored
   status, that projection is written, or the update's error is returned;
   otherwise nothing is written and no error is returned.
   */
  predicate WriteBack(t: Tick, nn: Name, stored: TiltfileStatus, env: Env)
    requires nn in t.state.runs ==> Projectable(t.state.runs[nn])
  {
    if nn in t.state.runs && StatusOf(t.state.runs[nn]) != stored then
      if env.statusErr.Some? then t.err == env.statusErr && t.written.None?
      else t.err.None? && t.written == Some(StatusOf(t.state.runs[nn]))
    else t.err.None? && t.written.None?
  }

  /** The status write-back: only when a record exists and its status differs from the stored one. */
  function WriteStatus(c: Controller, nn: Name, tf: Tiltfile, env: Env): (t: Tick)
    requires nn in c.runs ==> Projectable(c.runs[nn])
    ensures t.state == c && t.syncChange.None?
    ensures nn !in c.runs ==> t.err.None? && t.written.None?
    ensures t.written.Some? ==>
      nn in c.runs && t.written.value == StatusOf(c.runs[nn]) && t.written.value != tf.status
    ensures nn in c.runs && StatusOf(c.runs[nn]) != tf.status ==>
      t.err == env.statusErr && (t.written.Some? <==> env.statusErr.None?)
    ensures nn in c.runs && StatusOf(c.runs[nn]) == tf.status ==> t.err.None? && t.written.None?
    ensures WriteBack(t, nn, tf.status, env)
  {
    if nn !in c.runs then Tick(c, None, None, None)
    else
      var s := StatusOf(c.runs[nn]);
      if s == tf.status then Tick(c, None, None, None)
      else if env.statusErr.Some? then Tick(c, env.statusErr, None, None)
      else Tick(c, None, Some(s), None)
  }

  /** The deletion path: drop and cancel the run, then remove the owned objects. */
  function Delete(c: Controller, nn: Name, env: Env): (t: Tick)
    ensures t.state.runs.Keys == c.runs.Keys - {nn}
    ensures forall k :: k in t.state.runs ==> t.state.runs[k] == c.runs[k]
    ensures t.state.loadCount == c.loadCount
    ensures t.err == env.cleanupErr && t.written.None? && t.syncChange.None?
  {
    Tick(c.(runs := DeleteExistingRun(c.runs, nn).runs), env.cleanupErr, None, None)
  }

  /** A reconcile started a new run for `nn`: the record there is not the one that was there before. */
  predicate StartedNew(c: Controller, c': Controller, nn: Name) {
    nn in c'.runs && (nn !in c.runs || c'.runs[nn].entry.loadCount != c.runs[nn].entry.loadCount)
  }

  /** The Tiltfile exists and, on a first reconcile, its owned objects could be bootstrapped. */
  predicate Proceeds(c: Controller, nn: Name, env: Env) {
    env.fetch.Found? && !env.fetch.tf.deleting && !(nn !in c.runs && env.bootstrapErr.Some?)
  }

  /** The trigger decision a reconcile makes for a Tiltfile with no run or a finished one. */
  function Decide(c: Controller, nn: Name, env: Env): (d: Decision)
    requires env.fetch.Found? && env.restart.Ok? && env.queue.Ok?
  {
    NeedsBuild(nn, env.fetch.tf.spec, Get(c.runs, nn), env.restart.value.changedFiles,
               env.restart.value.time, env.queue.value, env.checkpoint, c.loadCount)
  }

  /** A running run: the stop check, then the status write-back. */
  function ReconcileRunning(c: Controller, nn: Name, tf: Tiltfile, env: Env): (t: Tick)
    requires Inv(c) && nn in c.runs && c.runs[nn].step == Running
    ensures Inv(t.state) && t.state.loadCount == c.loadCount && t.syncChange.None?
    ensures t.state.runs.Keys == c.runs.Keys && t.state.runs[nn].entry == c.runs[nn].entry
    ensures forall k :: k in c.runs && k != nn ==> t.state.runs[k] == c.runs[k]
    ensures env.lastStop.Failed? ==> t == Tick(c, Some(env.lastStop.message), None, None)
    ensures env.lastStop.Ok? ==> t.state == c.(runs := c.runs[nn := CancelIfStopped(c.runs[nn], env.lastStop.value)])
    ensures env.lastStop.Ok? ==> WriteBack(t, nn, tf.status, env)
    ensures t.written.Some? ==>
      nn in t.state.runs && t.written.value == StatusOf(t.state.runs[nn]) && t.written.value != tf.status
    ensures t.err.None? ==> (t.written.Some? <==> StatusOf(t.state.runs[nn]) != tf.status)
    ensures env.statusErr.Some? ==> t.written.None?
  {
    if env.lastStop.Failed? then Tick(c, Some(env.lastStop.message), None, None)
    else
      var run := CancelIfStopped(c.runs[nn], env.lastStop.value);
      assert RunInv(nn, c.runs[nn], c.loadCount);
      var c1 := c.(runs := c.runs[nn := run]);
      assert forall k :: k in c1.runs ==> RunInv(k, c1.runs[k], c1.loadCount);
      WriteStatus(c1, nn, tf, env)
  }

  /** The trigger decision and, when it issues an entry, the start of the run it asks for. */
  function StartIfNeeded(c: Controller, nn: Name, tf: Tiltfile, env: Env): (c': Controller)
    requires Inv(c) && env.fetch == Found(tf) && env.restart.Ok? && env.queue.Ok?
    requires StepOf(Get(c.runs, nn)) in {StepNone, Done}
    ensures Inv(c')
    ensures forall k :: k != nn ==> (k in c'.runs <==> k in c.runs)
    ensures forall k :: k != nn && k in c.runs ==> c'.runs[k] == c.runs[k]
    ensures var d := Decide(c, nn, env);
      && c'.loadCount == d.loadCount
      && (StartedNew(c, c', nn) <==> d.entry.Some?)
      && (d.entry.Some? ==> c'.runs[nn] == NewRun(tf.spec, d.entry.value, Get(c.runs, nn), env.now))
      && (d.entry.None? ==> c'.runs == c.runs)
  {
    var d := Decide(c, nn, env);
    if d.entry.None? then c
    else
      var c1 := Controller(StartRun(c.runs, nn, tf.spec, d.entry.value, Get(c.runs, nn), env.now), d.loadCount);
      assert RunInv(nn, c1.runs[nn], c1.loadCount);
      assert forall k :: k in c1.runs ==> RunInv(k, c1.runs[k], c1.loadCount);
      c1
  }

  /** No run or a finished one: the trigger decision, the start of a new run, the status write-back. */
  function ReconcileIdle(c: Controller, nn: Name, tf: Tiltfile, env: Env): (t: Tick)
    requires Inv(c) && env.fetch == Found(tf) && StepOf(Get(c.runs, nn)) in {StepNone, Done}
    ensures Inv(t.state) && t.syncChange.None?
    ensures forall k :: k != nn ==> (k in t.state.runs <==> k in c.runs)
    ensures forall k :: k != nn && k in c.runs ==> t.state.runs[k] == c.runs[k]
    ensures env.restart.Failed? ==> t == Tick(c, Some(env.restart.message), None, None)
    ensures env.restart.Ok? && env.queue.Failed? ==> t == Tick(c, Some(env.queue.message), None, None)
    ensures env.restart.Ok? && env.queue.Ok? ==>
      var d := Decide(c, nn, env);
      && t.state.loadCount == d.loadCount
      && (StartedNew(c, t.state, nn) <==> d.entry.Some?)
      && (d.entry.Some? ==> t.state.runs[nn] == NewRun(tf.spec, d.entry.value, Get(c.runs, nn), env.now))
      && (d.entry.None? ==> t.state.runs == c.runs)
    ensures env.restart.Ok? && env.queue.Ok? ==> WriteBack(t, nn, tf.status, env)
    ensures StartedNew(c, t.state, nn) ==>
      && t.state.loadCount == c.loadCount + 1
      && t.state.runs[nn].entry.loadCount == t.state.loadCount
      && t.state.runs[nn].step == Running
      && t.state.runs[nn].tlr == (if nn in c.runs then c.runs[nn].tlr else None)
    ensures !StartedNew(c, t.state, nn) ==> t.state.loadCount == c.loadCount
    ensures t.written.Some? ==>
      nn in t.state.runs && t.written.value == StatusOf(t.state.runs[nn]) && t.written.value != tf.status
    ensures t.err.None? && nn in t.state.runs ==> (t.written.Some? <==> StatusOf(t.state.runs[nn]) != tf.status)
    ensures env.statusErr.Some? ==> t.written.None?
  {
    if env.restart.Failed? then Tick(c, Some(env.restart.message), None, None)
    else if env.queue.Failed? then Tick(c, Some(env.queue.message), None, None)
    else WriteStatus(StartIfNeeded(c, nn, tf, env), nn, tf, env)
  }

  /** A loaded run: the owned-object update, then Done and the status write-back; nothing changes on failure. */
  function ReconcileLoaded(c: Controller, nn: Name, tf: Tiltfile, env: Env): (t: Tick)
    requires Inv(c) && nn in c.runs && c.runs[nn].step == Loaded
    ensures Inv(t.state) && t.state.loadCount == c.loadCount
    ensures t.state.runs.Keys == c.runs.Keys && t.state.runs[nn].entry == c.runs[nn].entry
    ensures forall k :: k in c.runs && k != nn ==> t.state.runs[k] == c.runs[k]
    ensures var s := HandleLoaded(c.runs, nn, env.syncErr, env.now);
      && t.state == c.(runs := s.runs)
      && t.syncChange == Some(s.changeEnabled)
      && (s.err.Some? ==> t.err == s.err && t.written.None?)
    ensures env.syncErr.None? ==> WriteBack(t, nn, tf.status, env)
    ensures t.written.Some? ==>
      nn in t.state.runs && t.written.value == StatusOf(t.state.runs[nn]) && t.written.value != tf.status
    ensures t.err.None? ==> (t.written.Some? <==> StatusOf(t.state.runs[nn]) != tf.status)
    ensures env.statusErr.Some? ==> t.written.None?
  {
    var s := HandleLoaded(c.runs, nn, env.syncErr, env.now);
    if s.err.Some? then Tick(c, s.err, None, Some(s.changeEnabled))
    else
      assert RunInv(nn, c.runs[nn], c.loadCount);
      var c1 := c.(runs := s.runs);
      assert forall k :: k in c1.runs ==> RunInv(k, c1.runs[k], c1.loadCount);
      WriteStatus(c1, nn, tf, env).(syncChange := Some(s.changeEnabled))
  }

  /** The calls a reconcile makes for the step it finds all succeed. */
  predicate LookupsOk(c: Controller, nn: Name, env: Env) {
    match StepOf(Get(c.runs, nn))
    case Running => env.lastStop.Ok?
    case Loaded => env.syncErr.None?
    case _ => env.restart.Ok? && env.queue.Ok?
  }

  /** The reconcile of an existing Tiltfile that is not being deleted and whose owned objects are bootstrapped. */
  function ReconcileFound(c: Controller, nn: Name, tf: Tiltfile, env: Env): (t: Tick)
    requires Inv(c) && env.fetch == Found(tf) && Proceeds(c, nn, env)
    ensures Inv(t.state)
    ensures forall k :: k != nn ==> (k in t.state.runs <==> k in c.runs)
    ensures forall k :: k != nn && k in c.runs ==> t.state.runs[k] == c.runs[k]
    ensures StartedNew(c, t.state, nn) ==>
      && StepOf(Get(c.runs, nn)) in {StepNone, Done}
      && t.state.loadCount == c.loadCount + 1
      && t.state.runs[nn].entry.loadCount == t.state.loadCount
      && t.state.runs[nn].step == Running
      && t.state.runs[nn].tlr == (if nn in c.runs then c.runs[nn].tlr else None)
    ensures !StartedNew(c, t.state, nn) ==> t.state.loadCount == c.loadCount
    ensures t.syncChange.Some? ==> StepOf(Get(c.runs, nn)) == Loaded
    ensures nn in c.runs && c.runs[nn].step in {Running, Loaded} ==>
      nn in t.state.runs && t.state.runs[nn].entry == c.runs[nn].entry
    ensures t.written.Some? ==>
      nn in t.state.runs && t.written.value == StatusOf(t.state.runs[nn]) && t.written.value != tf.status
    ensures t.err.None? && nn in t.state.runs ==> (t.written.Some? <==> StatusOf(t.state.runs[nn]) != tf.status)
    ensures env.statusErr.Some? ==> t.written.None?
    ensures LookupsOk(c, nn, env) ==> WriteBack(t, nn, tf.status, env)
  {
    var step := StepOf(Get(c.runs, nn));
    if step == Running then ReconcileRunning(c, nn, tf, env)
    else if step == Loaded then ReconcileLoaded(c, nn, tf, env)
    else ReconcileIdle(c, nn, tf, env)
  }

  /** Reconcile. */
  function Reconcile(c: Controller, nn: Name, env: Env): (t: Tick)
    requires Inv(c)
    ensures Inv(t.state)
    // The counter moves by at most one, and only when a run is started.
    ensures t.state.loadCount == c.loadCount || t.state.loadCount == c.loadCount + 1
    // Other names are never touched.
    ensures forall k :: k != nn ==> (k in t.state.runs <==> k in c.runs)
    ensures forall k :: k != nn && k in c.runs ==> t.state.runs[k] == c.runs[k]
    // A fetch failure changes nothing.
    ensures env.fetch.FetchFailed? ==> t == Tick(c, Some(env.fetch.message), None, None)
    // A missing or deleting Tiltfile loses its run and reports the cleanup error.
    ensures env.fetch.NotFound? || (env.fetch.Found? && env.fetch.tf.deleting) ==>
      nn !in t.state.runs && t.state.loadCount == c.loadCount && t.err == env.cleanupErr && t.written.None?
    // A failed bootstrap of a first reconcile changes nothing.
    ensures env.fetch.Found? && !env.fetch.tf.deleting && nn !in c.runs && env.bootstrapErr.Some? ==>
      t == Tick(c, env.bootstrapErr, None, None)
    // A new run starts only from no run or a finished one, fresh counter, running, seeded from the previous run.
    ensures StartedNew(c, t.state, nn) ==>
      && StepOf(Get(c.runs, nn)) in {StepNone, Done}
      && t.state.loadCount == c.loadCount + 1
      && t.state.runs[nn].entry.loadCount == t.state.loadCount
      && t.state.runs[nn].step == Running
      && t.state.runs[nn].tlr == (if nn in c.runs then c.runs[nn].tlr else None)
    ensures !StartedNew(c, t.state, nn) ==> t.state.loadCount == c.loadCount
    // From no run or a finished one, a run starts exactly when the trigger decision issues an entry.
    ensures Proceeds(c, nn, env) && StepOf(Get(c.runs, nn)) in {StepNone, Done} ==>
      if env.restart.Failed? then t == Tick(c, Some(env.restart.message), None, None)
      else if env.queue.Failed? then t == Tick(c, Some(env.queue.message), None, None)
      else
        var d := Decide(c, nn, env);
        && t.state.loadCount == d.loadCount
        && (StartedNew(c, t.state, nn) <==> d.entry.Some?)
        && (d.entry.Some? ==> t.state.runs[nn] == NewRun(env.fetch.tf.spec, d.entry.value, Get(c.runs, nn), env.now))
        && (d.entry.None? ==> t.state.runs == c.runs)
    // A running run is only ever canceled by a stop event.
    ensures Proceeds(c, nn, env) && StepOf(Get(c.runs, nn)) == Running ==>
      if env.lastStop.Failed? then t == Tick(c, Some(env.lastStop.message), None, None)
      else t.state == c.(runs := c.runs[nn := CancelIfStopped(c.runs[nn], env.lastStop.value)])
    // A loaded run is synced: finished on success, left as it is on failure.
    ensures Proceeds(c, nn, env) && StepOf(Get(c.runs, nn)) == Loaded ==>
      var s := HandleLoaded(c.runs, nn, env.syncErr, env.now);
      && t.state == c.(runs := s.runs)
      && t.syncChange == Some(s.changeEnabled)
      && (s.err.Some? ==> t.err == s.err && t.written.None?)
    ensures t.syncChange.Some? ==> Proceeds(c, nn, env) && StepOf(Get(c.runs, nn)) == Loaded
    // A running or loaded run is never replaced while its Tiltfile exists.
    ensures env.fetch.Found? && !env.fetch.tf.deleting && nn in c.runs
            && c.runs[nn].step in {Running, Loaded} ==>
      nn in t.state.runs && t.state.runs[nn].entry == c.runs[nn].entry
    // The status written is the projection of the record the reconcile leaves.
    ensures t.written.Some? ==>
      && env.fetch.Found? && nn in t.state.runs
      && t.written.value == StatusOf(t.state.runs[nn])
      && t.written.value != env.fetch.tf.status
    ensures Proceeds(c, nn, env) && t.err.None? && nn in t.state.runs ==>
      (t.written.Some? <==> StatusOf(t.state.runs[nn]) != env.fetch.tf.status)
    ensures Proceeds(c, nn, env) && env.statusErr.Some? ==> t.written.None?
    // When every call succeeds, the only error is the status update's, and the status is written iff it differs.
    ensures Proceeds(c, nn, env) && LookupsOk(c, nn, env) ==> WriteBack(t, nn, env.fetch.tf.status, env)
  {
    match env.fetch
    case FetchFailed(m) => Tick(c, Some(m), None, None)
    case NotFound => Delete(c, nn, env)
    case Found(tf) =>
      if tf.deleting then Delete(c, nn, env)
      else if nn !in c.runs && env.bootstrapErr.Some? then Tick(c, env.bootstrapErr, None, None)
      else ReconcileFound(c, nn, tf, env)
  }

  /** The name the trigger-queue config map is reserved under. */
  const TriggerQueueName := "tilt-trigger-queue"

  /** An object seen by the config-map watch: a config map with the names its queue lists, or anything else. */
  datatype WatchedObject = ConfigMapObject(name: string, queuedNames: seq<string>) | OtherObject

  /** The queued names, in order, that have a run record (queue entries carry no namespace). */
  function KnownQueued(names: seq<string>, runs: map<Name, Run>): (requests: seq<Name>)
    decreases |names|
  {
    if |names| == 0 then []
    else
      var nn := Name("", names[|names| - 1]);
      KnownQueued(names[..|names| - 1], runs) + (if nn in runs then [nn] else [])
  }

  /** KnownQueued keeps exactly the queued names with a record. */
  lemma {:induction false} KnownQueuedMembers(names: seq<string>, runs: map<Name, Run>, nn: Name)
    ensures nn in KnownQueued(names, runs) <==> nn.namespace == "" && nn.name in names && nn in runs
    decreases |names|
  {
    if |names| > 0 {
      var init := names[..|names| - 1];
      KnownQueuedMembers(init, runs, nn);
      assert names == init + [names[|names| - 1]];
    }
  }

  /** KnownQueued never lists more requests than there are queued names. */
  lemma {:induction false} KnownQueuedLength(names: seq<string>, runs: map<Name, Run>)
    ensures |KnownQueued(names, runs)| <= |names|
    decreases |names|
  {
    if |names| > 0 {
      KnownQueuedLength(names[..|names| - 1], runs);
    }
  }

  /** enqueueTriggerQueue: reconcile requests for the queued Tiltfiles that have run at least once. */
  method EnqueueTriggerQueue(obj: WatchedObject, runs: map<Name, Run>) returns (requests: seq<Name>)
    ensures !(obj.ConfigMapObject? && obj.name == TriggerQueueName) ==> requests == []
    ensures obj.ConfigMapObject? && obj.name == TriggerQueueName ==>
      requests == KnownQueued(obj.queuedNames, runs)
    ensures forall i :: 0 <= i < |requests| ==> requests[i] in runs && requests[i].namespace == ""
  {
    requests := [];
    if !obj.ConfigMapObject? || obj.name != TriggerQueueName {
      return;
    }
    var names := obj.queuedNames;
    var i := 0;
    while i < |names|
      invariant 0 <= i <= |names|
      invariant requests == KnownQueued(names[..i], runs)
      invariant forall j :: 0 <= j < |requests| ==> requests[j] in runs && requests[j].namespace == ""
    {
      var nn := Name("", names[i]);
      assert names[..i + 1][..i] == names[..i];
      if nn in runs {
        requests := requests + [nn];
      }
      i := i + 1;
    }
    assert names[..i] == names;
  }

  /**
   Something that happens to the controller: a reconcile, or the end of a
   run's evaluation, with what the run read from its context before it took
   the lock.
   */
  datatype Event =
    | Reconciled(nn: Name, env: Env)
    | Evaluated(nn: Name, id: nat, loaded: LoadResult, dockerErr: Option<string>, sawCancel: bool)

  function Apply(c: Controller, e: Event): (c': Controller)
    requires Inv(c)
    ensures Inv(c')
    ensures c.loadCount <= c'.loadCount
    ensures forall nn :: KeptOrFresher(c, c', nn)
  {
    match e
    case Reconciled(nn, env) => Reconcile(c, nn, env).state
    case Evaluated(nn, id, loaded, dockerErr, sawCancel) => Complete(c, nn, id, loaded, dockerErr, sawCancel)
  }

  /**
   Any interleaving of reconciles and run completions, from a controller
   satisfying the invariant, keeps it, and never moves the load counter back.
   */
  function Replay(c: Controller, es: seq<Event>): (c': Controller)
    requires Inv(c)
    ensures Inv(c')
    ensures c.loadCount <= c'.loadCount
    decreases |es|
  {
    if |es| == 0 then c else Replay(Apply(c, es[0]), es[1..])
  }

  /** The invariant holds from the start: every reachable controller satisfies it. */
  lemma ReachableInv(es: seq<Event>)
    ensures Inv(Replay(InitialController, es))
  {
  }

  /** A record at `nn` after a trace keeps its counter from before, or was issued during the trace. */
  predicate KeptOrFresher(c: Controller, c': Controller, nn: Name) {
    nn in c'.runs ==>
      (nn in c.runs && c'.runs[nn].entry.loadCount == c.runs[nn].entry.loadCount)
      || c'.runs[nn].entry.loadCount > c.loadCount
  }

  /**
   Records only ever get fresher counters: after any trace, a record at `nn`
   either is the one that was there, or was started after the trace began.
   */
  lemma {:induction false} ReplayFreshRuns(c: Controller, es: seq<Event>, nn: Name)
    requires Inv(c)
    ensures KeptOrFresher(c, Replay(c, es), nn)
    decreases |es|
  {
    if |es| > 0 {
      var c1 := Apply(c, es[0]);
      ReplayFreshRuns(c1, es[1..], nn);
      assert Replay(c, es) == Replay(c1, es[1..]);
    }
  }

  /**
   A stale completion (of a run whose record was deleted or replaced) never
   touches the registry, since a replacing run always carries a fresher counter.
   */
  lemma StaleCompletionIsIgnored(c: Controller, es: seq<Event>, nn: Name, id: nat,
                                 loaded: LoadResult, dockerErr: Option<string>, sawCancel: bool)
    requires Inv(c)
    requires id <= c.loadCount
    requires nn in c.runs ==> c.runs[nn].entry.loadCount != id
    ensures var c' := Replay(c, es);
      Complete(c', nn, id, loaded, dockerErr, sawCancel) == c'
  {
    ReplayFreshRuns(c, es, nn);
  }

  /** The first reconcile of a Tiltfile starts its first run at once and reports it running. */
  lemma FirstReconcileStartsRun(c: Controller, nn: Name, tf: Tiltfile, env: Env)
    requires Inv(c) && nn !in c.runs
    requires env.fetch == Found(tf) && !tf.deleting && tf.status == EmptyStatus
    requires env.bootstrapErr.None? && env.restart.Ok? && env.queue.Ok? && env.statusErr.None?
    ensures var t := Reconcile(c, nn, env);
      && t.err.None?
      && nn in t.state.runs
      && t.state.runs[nn].step == Running
      && Init in t.state.runs[nn].entry.reason
      && t.state.runs[nn].tlr.None?
      && t.written == Some(TiltfileStatus(None, Some(StateRunning(env.now)), None))
  {
  }

  /** A failed sync leaves the run Loaded and reports the error; the retry with a working API server finishes it. */
  lemma SyncFailureIsRetried(c: Controller, nn: Name, tf: Tiltfile, env: Env, msg: string)
    requires Inv(c) && nn in c.runs && c.runs[nn].step == Loaded
    requires env.fetch == Found(tf) && !tf.deleting
    ensures var t := Reconcile(c, nn, env.(syncErr := Some(msg)));
      t.state == c && t.err == Some(SyncPrefix + msg)
    ensures var t := Reconcile(c, nn, env.(syncErr := None));
      t.state.runs[nn].step == Done && t.state.runs[nn].tlr == c.runs[nn].tlr
      && t.state.runs[nn].finishTime == env.now
  {
  }

  /**
   A running run that sees a stop event at or after its start is canceled.
   If the run reads its context after that reconcile, then once its result is
   synced the Tiltfile is reported terminated with exactly the cancellation
   message, whatever the loader returned.
   */
  lemma StopCancelsRun(c: Controller, nn: Name, tf: Tiltfile, env1: Env,
                       loaded: LoadResult, dockerErr: Option<string>, env2: Env)
    requires Inv(c) && nn in c.runs && c.runs[nn].step == Running
    requires env1.fetch == Found(tf) && !tf.deleting
    requires env1.lastStop.Ok? && env1.lastStop.value >= c.runs[nn].startTime
    requires env2.fetch.Found? && !env2.fetch.tf.deleting && env2.syncErr.None?
    ensures var c1 := Reconcile(c, nn, env1).state;
      && nn in c1.runs && c1.runs[nn].canceled
      && var c2 := Complete(c1, nn, c.runs[nn].entry.loadCount, loaded, dockerErr, c1.runs[nn].canceled);
         var c3 := Reconcile(c2, nn, env2).state;
         && nn in c3.runs && c3.runs[nn].step == Done
         && StatusOf(c3.runs[nn]).terminated
            == Some(StateTerminated(c.runs[nn].startTime, env2.now, CanceledMessage))
  {
  }

  /**
   The cancellation window: the run reads its context before it waits for the
   lock, and a reconcile holding the lock may cancel it in between. The record
   is then canceled, yet the installed result keeps the loader's own error and
   the Tiltfile is reported terminated with that error, not the cancellation
   message.
   */
  lemma LateStopIsNotReported(c: Controller, nn: Name, tf: Tiltfile, env1: Env,
                              loaded: LoadResult, dockerErr: Option<string>, env2: Env, msg: string)
    requires Inv(c) && nn in c.runs && c.runs[nn].step == Running
    requires env1.fetch == Found(tf) && !tf.deleting
    requires env1.lastStop.Ok? && env1.lastStop.value >= c.runs[nn].startTime
    requires loaded.error == Some(EvalError(msg)) && msg != CanceledMessage
    requires env2.fetch.Found? && !env2.fetch.tf.deleting && env2.syncErr.None?
    ensures var c1 := Reconcile(c, nn, env1).state;
      && nn in c1.runs && c1.runs[nn].canceled
      && var c2 := Complete(c1, nn, c.runs[nn].entry.loadCount, loaded, dockerErr, false);
         var c3 := Reconcile(c2, nn, env2).state;
         && nn in c3.runs && c3.runs[nn].step == Done && c3.runs[nn].canceled
         && StatusOf(c3.runs[nn]).terminated
            == Some(StateTerminated(c.runs[nn].startTime, env2.now, msg))
         && msg != CanceledMessage
  {
  }

  /**
   An uncanceled, error-free load of the main Tiltfile with no manifests is
   reported, once synced, as terminated with exactly the onboarding hint.
   */
  lemma EmptyMainTiltfileReportsHint(c: Controller, nn: Name, loaded: LoadResult,
                                     dockerErr: Option<string>, env: Env)
    requires Inv(c) && nn in c.runs && c.runs[nn].step == Running && IsMain(nn)
    requires loaded.error.None? && |loaded.manifests| == 0
    requires env.fetch.Found? && !env.fetch.tf.deleting && env.syncErr.None?
    ensures var c1 := Complete(c, nn, c.runs[nn].entry.loadCount, loaded, dockerErr, false);
      var c2 := Reconcile(c1, nn, env).state;
      && nn in c2.runs && c2.runs[nn].step == Done
      && StatusOf(c2.runs[nn]).terminated
         == Some(StateTerminated(c.runs[nn].startTime, env.now, NoResourcesMessage))
  {
  }

  /**
   A finished Tiltfile whose args change is reloaded; when that load ends
   uncanceled with an error-free result, its sync is asked to change the
   enabled resources. A canceled load never is.
   */
  lemma ChangedArgsReachEnabledResources(c: Controller, nn: Name, tf: Tiltfile, env1: Env,
                                         loaded: LoadResult, dockerErr: Option<string>,
                                         sawCancel: bool, env2: Env)
    requires Inv(c) && nn in c.runs && c.runs[nn].step == Done
    requires env1.fetch == Found(tf) && !tf.deleting && env1.restart.Ok? && env1.queue.Ok?
    requires tf.spec.args != c.runs[nn].startArgs
    requires loaded.error.None? && !EmptyMainLoad(loaded, IsMain(nn)) && dockerErr.None?
    requires env2.fetch.Found? && !env2.fetch.tf.deleting
    ensures var c1 := Reconcile(c, nn, env1).state;
      && StartedNew(c, c1, nn)
      && TiltfileArgs in c1.runs[nn].entry.reason
      && var c2 := Complete(c1, nn, c1.runs[nn].entry.loadCount, loaded, dockerErr, sawCancel);
         Reconcile(c2, nn, env2).syncChange == Some(!sawCancel)
  {
  }
}
