/**
 The trigger decision of the Tiltfile reconciler: given the previous run (if
 any) and the external signals, decide whether a new Tiltfile load is needed,
 with which reasons, and advance the load counter when it is.
 */
module Trigger {
  import opened Types

  /** The step of a possibly absent run record; no record reads as StepNone. */
  function StepOf(run: Option<Run>): (step: Step) {
    if run.Some? then run.value.step else StepNone
  }

  /** When the previous run started; the zero time when there is none. */
  function LastStartTime(run: Option<Run>): (t: Time) {
    if run.Some? then run.value.startTime else ZeroTime
  }

  /** The arguments the previous run started with; empty when there is none. */
  function LastStartArgs(run: Option<Run>): (args: seq<string>) {
    if run.Some? then run.value.startArgs else []
  }

  /** The reason the manual trigger queue holds for `nn`; empty when `nn` is not queued. */
  function QueueReason(queue: TriggerQueue, nn: Name): (reason: BuildReason) {
    if nn in queue then queue[nn] else {}
  }

  /** Result of the decision: the entry (if a load is needed) and the new load counter. */
  datatype Decision = Decision(entry: Option<BuildEntry>, loadCount: nat)

  /**
   The reason a run is needed as far as the restart-on triggers are concerned:
   a first load, changed files, or (only when no file changed) a restart event
   strictly after the last start.
   */
  function RestartReason(step: Step, changed: seq<string>, lastRestart: Time, lastStart: Time): (r: BuildReason)
    ensures step == StepNone ==> r == {Init}
    ensures Init in r <==> step == StepNone
    ensures ChangedFiles in r <==> step != StepNone && |changed| > 0
    ensures TriggerUnknown in r <==> step != StepNone && |changed| == 0 && lastRestart > lastStart
    ensures r <= {Init, ChangedFiles, TriggerUnknown}
    ensures !(ChangedFiles in r && TriggerUnknown in r)
  {
    if step == StepNone then {Init}
    else if |changed| > 0 then {ChangedFiles}
    else if lastRestart > lastStart then {TriggerUnknown}
    else {}
  }

  /** The argument reason: raised only after a real start, when the arguments differ. */
  function ArgsReason(lastStart: Time, args: seq<string>, lastArgs: seq<string>): (r: BuildReason)
    ensures TiltfileArgs in r <==> lastStart != ZeroTime && args != lastArgs
    ensures r <= {TiltfileArgs}
  {
    if lastStart != ZeroTime && args != lastArgs then {TiltfileArgs} else {}
  }

  /**
   needsBuild. `changed` is what the restart-on file watches report as changed
   since the last start; `lastRestart` is the last restart event; `checkpoint`
   is the log-store checkpoint at the moment of the decision.
   */
  function NeedsBuild(
    nn: Name, spec: Spec, run: Option<Run>, changed: seq<string>, lastRestart: Time,
    queue: TriggerQueue, checkpoint: nat, loadCount: nat): (d: Decision)
    // No reason: nothing is issued and the counter is untouched.
    ensures d.entry.None? ==> d.loadCount == loadCount
    // A reason: the counter moves by exactly one and the entry carries it.
    ensures d.entry.Some? ==> d.loadCount == loadCount + 1 && d.entry.value.loadCount == d.loadCount
    // Exactly when no reason accumulates.
    ensures d.entry.None? <==>
      && StepOf(run) != StepNone
      && |changed| == 0
      && lastRestart <= LastStartTime(run)
      && (LastStartTime(run) == ZeroTime || spec.args == LastStartArgs(run))
      && QueueReason(queue, nn) == {}
    ensures d.entry.Some? ==>
      var e := d.entry.value;
      && e.name == nn.name && e.args == spec.args && e.path == spec.path && e.checkpoint == checkpoint
      && e.filesChanged == (if StepOf(run) == StepNone then [] else changed)
      && (e.argsChanged <==> spec.args != LastStartArgs(run))
      && (Init in e.reason <==> StepOf(run) == StepNone || Init in QueueReason(queue, nn))
      && (ChangedFiles in e.reason <==>
            (StepOf(run) != StepNone && |changed| > 0) || ChangedFiles in QueueReason(queue, nn))
      && (TriggerUnknown in e.reason <==>
            (StepOf(run) != StepNone && |changed| == 0 && lastRestart > LastStartTime(run))
            || TriggerUnknown in QueueReason(queue, nn))
      && (TiltfileArgs in e.reason <==>
            (LastStartTime(run) != ZeroTime && spec.args != LastStartArgs(run))
            || TiltfileArgs in QueueReason(queue, nn))
      && QueueReason(queue, nn) <= e.reason
      && e.reason <= {Init, ChangedFiles, TriggerUnknown, TiltfileArgs} + QueueReason(queue, nn)
  {
    var step := StepOf(run);
    var lastStart := LastStartTime(run);
    var lastArgs := LastStartArgs(run);
    var reason := RestartReason(step, changed, lastRestart, lastStart)
                  + ArgsReason(lastStart, spec.args, lastArgs)
                  + QueueReason(queue, nn);
    if reason == {} then Decision(None, loadCount)
    else
      var files := if step == StepNone then [] else changed;
      Decision(Some(BuildEntry(nn.name, files, reason, spec.args, spec.path, checkpoint,
                               loadCount + 1, lastArgs != spec.args)),
               loadCount + 1)
  }

  /** With no previous run a load is always needed, for the reason Init. */
  lemma FirstLoadAlwaysBuilds(
    nn: Name, spec: Spec, changed: seq<string>, lastRestart: Time,
    queue: TriggerQueue, checkpoint: nat, loadCount: nat)
    ensures var d := NeedsBuild(nn, spec, None, changed, lastRestart, queue, checkpoint, loadCount);
      d.entry.Some? && Init in d.entry.value.reason && d.entry.value.filesChanged == []
      && TiltfileArgs !in d.entry.value.reason - QueueReason(queue, nn)
  {
  }

  /**
   After a run, changed files and an unknown trigger are never both reported
   (unless the manual queue itself carries one of them).
   */
  lemma ChangedFilesExcludesUnknown(
    nn: Name, spec: Spec, run: Run, changed: seq<string>, lastRestart: Time,
    queue: TriggerQueue, checkpoint: nat, loadCount: nat)
    requires run.step != StepNone
    requires ChangedFiles !in QueueReason(queue, nn) && TriggerUnknown !in QueueReason(queue, nn)
    ensures var d := NeedsBuild(nn, spec, Some(run), changed, lastRestart, queue, checkpoint, loadCount);
      d.entry.Some? ==>
        && (ChangedFiles in d.entry.value.reason <==> |changed| > 0)
        && (TriggerUnknown in d.entry.value.reason ==> |changed| == 0 && lastRestart > run.startTime)
        && !(ChangedFiles in d.entry.value.reason && TriggerUnknown in d.entry.value.reason)
  {
  }

  /**
   No spurious rebuilds: after a run, with no changed file, no newer restart
   event, the same arguments and an empty queue slot, nothing is issued.
   */
  lemma NoSpuriousRebuild(
    nn: Name, spec: Spec, run: Run, lastRestart: Time,
    queue: TriggerQueue, checkpoint: nat, loadCount: nat)
    requires run.step != StepNone
    requires lastRestart <= run.startTime
    requires spec.args == run.startArgs
    requires nn !in queue
    ensures NeedsBuild(nn, spec, Some(run), [], lastRestart, queue, checkpoint, loadCount)
            == Decision(None, loadCount)
  {
  }

  /** One call of the decision, with all of its inputs except the load counter. */
  datatype Query = Query(
    nn: Name, spec: Spec, run: Option<Run>, changed: seq<string>, lastRestart: Time,
    queue: TriggerQueue, checkpoint: nat)

  /** The entries issued by a series of decisions threading one counter, and the final counter. */
  function Issue(qs: seq<Query>, loadCount: nat): (issued: (seq<BuildEntry>, nat))
    decreases |qs|
  {
    if |qs| == 0 then ([], loadCount)
    else
      var q := qs[0];
      var d := NeedsBuild(q.nn, q.spec, q.run, q.changed, q.lastRestart, q.queue, q.checkpoint, loadCount);
      var (rest, final) := Issue(qs[1..], d.loadCount);
      (if d.entry.Some? then [d.entry.value] + rest else rest, final)
  }

  /**
   Load counters are never reused: across any series of decisions the issued
   entries carry strictly increasing counters, all above the starting value,
   and the counter ends exactly one higher per issued entry.
   */
  lemma {:induction false} IssuedCountersIncrease(qs: seq<Query>, loadCount: nat)
    ensures var (es, final) := Issue(qs, loadCount);
      && final == loadCount + |es|
      && (forall i :: 0 <= i < |es| ==> loadCount < es[i].loadCount <= final)
      && (forall i, j :: 0 <= i < j < |es| ==> es[i].loadCount < es[j].loadCount)
    decreases |qs|
  {
    if |qs| > 0 {
      var q := qs[0];
      var d := NeedsBuild(q.nn, q.spec, q.run, q.changed, q.lastRestart, q.queue, q.checkpoint, loadCount);
      IssuedCountersIncrease(qs[1..], d.loadCount);
      var (rest, final) := Issue(qs[1..], d.loadCount);
      if d.entry.Some? {
        ConsIncreasing(d.entry.value, rest, loadCount, final);
      }
    }
  }

  /** An entry carrying the next counter, in front of increasing entries above it, keeps them increasing. */
  lemma ConsIncreasing(e: BuildEntry, rest: seq<BuildEntry>, loadCount: nat, final: nat)
    requires e.loadCount == loadCount + 1 <= final
    requires forall i :: 0 <= i < |rest| ==> loadCount + 1 < rest[i].loadCount <= final
    requires forall i, j :: 0 <= i < j < |rest| ==> rest[i].loadCount < rest[j].loadCount
    ensures var es := [e] + rest;
      && (forall i :: 0 <= i < |es| ==> loadCount < es[i].loadCount <= final)
      && (forall i, j :: 0 <= i < j < |es| ==> es[i].loadCount < es[j].loadCount)
  {
  }
}
