/**
 The projection of a run record onto the Tiltfile's API status.
 */
module Status {
  import opened Types

  /** Exactly one of the three sub-states of a status object is set. */
  predicate ExactlyOne(s: TiltfileStatus) {
    || (s.waiting.Some? && s.running.None? && s.terminated.None?)
    || (s.waiting.None? && s.running.Some? && s.terminated.None?)
    || (s.waiting.None? && s.running.None? && s.terminated.Some?)
  }

  /** A finished run has a load result (the status projection dereferences it). */
  predicate Projectable(run: Run) {
    run.step == Done ==> run.tlr.Some?
  }

  /** The error text of a finished run: empty when its result carries no error. */
  function TerminatedError(tlr: LoadResult): (text: string)
    ensures tlr.error.None? ==> text == ""
    ensures tlr.error.Some? && tlr.error.value != EvalError("") ==> text != ""
  {
    if tlr.error.Some? then ErrorText(tlr.error.value) else ""
  }

  /** runStatus.TiltfileStatus. */
  function StatusOf(run: Run): (s: TiltfileStatus)
    requires Projectable(run)
    ensures ExactlyOne(s)
    ensures s.running.Some? <==> run.step == Running || run.step == Loaded
    ensures s.running.Some? ==> s.running.value.startedAt == run.startTime
    ensures s.terminated.Some? <==> run.step == Done
    ensures s.terminated.Some? ==>
      && s.terminated.value.startedAt == run.startTime
      && s.terminated.value.finishedAt == run.finishTime
      && (s.terminated.value.error == "" <==>
            run.tlr.value.error.None? || run.tlr.value.error == Some(EvalError("")))
      && (run.tlr.value.error.Some? ==> s.terminated.value.error == ErrorText(run.tlr.value.error.value))
    ensures s.waiting.Some? <==> run.step == StepNone
    ensures s.waiting.Some? ==> s.waiting.value.reason == "Unknown"
  {
    match run.step
    case Running => TiltfileStatus(None, Some(StateRunning(run.startTime)), None)
    case Loaded => TiltfileStatus(None, Some(StateRunning(run.startTime)), None)
    case Done =>
      TiltfileStatus(None, None, Some(StateTerminated(run.startTime, run.finishTime, TerminatedError(run.tlr.value))))
    case StepNone => TiltfileStatus(Some(StateWaiting("Unknown")), None, None)
  }

  /** A canceled run reports exactly the cancellation message once it is done. */
  lemma CanceledRunReportsCancellation(run: Run)
    requires run.step == Done && run.tlr.Some? && run.tlr.value.error == Some(BuildCanceled)
    ensures StatusOf(run).terminated.Some? && StatusOf(run).terminated.value.error == CanceledMessage
  {
  }
}
