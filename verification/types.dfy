/**
 The vocabulary shared by the model of the Tiltfile reconciler: resource names,
 specs, build reasons and entries, the run record and its step, the loader's
 result, and the API status object that the reconciler writes back.
 */
module Types {

  datatype Option<+T> = None | Some(value: T)

  /** The answer of a collaborator call that may fail with an error message. */
  datatype Fallible<+T> = Ok(value: T) | Failed(message: string)

  /** Timestamps at an abstract resolution; 0 plays the role of the zero time.Time. */
  type Time = nat
  const ZeroTime: Time := 0

  /** A reading of the wall clock, which is never the zero time. */
  type Instant = t: Time | t > ZeroTime witness 1

  /** A namespaced resource name. */
  datatype Name = Name(namespace: string, name: string)

  /** The part of a Tiltfile spec the core looks at: the file path and its CLI arguments. */
  datatype Spec = Spec(path: string, args: seq<string>)

  /** Build-reason flags; a BuildReason is the set of flags raised (a bit set in Go). */
  datatype ReasonFlag =
    | Init | ChangedFiles | TriggerUnknown | TiltfileArgs
    | TriggerWeb | TriggerCLI | TriggerHUD
  type BuildReason = set<ReasonFlag>

  /** Everything the reconciler records about why and how a run was requested. */
  datatype BuildEntry = BuildEntry(
    name: string,
    filesChanged: seq<string>,
    reason: BuildReason,
    args: seq<string>,
    path: string,
    checkpoint: nat,
    loadCount: nat,
    argsChanged: bool)

  /** The lifecycle of one Tiltfile execution. */
  datatype Step = StepNone | Running | Loaded | Done

  datatype Orchestrator = K8s | DockerCompose

  /** An image target; `dockerBuild` abstracts IsDockerBuild(). */
  datatype ImageTarget = ImageTarget(dockerBuild: bool)

  /** A manifest as far as the Docker requirement is concerned. */
  datatype Manifest = Manifest(name: string, orchestrator: Option<Orchestrator>, imageTargets: seq<ImageTarget>)

  /** The errors a load result can carry, by origin. */
  datatype LoadError =
    | EvalError(message: string)        // whatever the loader reported
    | NoResources                       // empty main Tiltfile: onboarding hint
    | DockerUnreachable(cause: string)  // the Docker connectivity check failed
    | BuildCanceled                     // the run's context was canceled

  /** The loader's result; fields other than these are carried along unchanged. */
  datatype LoadResult = LoadResult(manifests: seq<Manifest>, error: Option<LoadError>, configFiles: seq<string>)

  /** The record the reconciler keeps per Tiltfile; `canceled` stands for its context's cancel state. */
  datatype Run = Run(
    step: Step,
    canceled: bool,
    spec: Spec,
    entry: BuildEntry,
    tlr: Option<LoadResult>,
    startTime: Time,
    startArgs: seq<string>,
    finishTime: Time)

  datatype StateWaiting = StateWaiting(reason: string)
  datatype StateRunning = StateRunning(startedAt: Time)
  datatype StateTerminated = StateTerminated(startedAt: Time, finishedAt: Time, error: string)

  /** The API status object: three optional sub-states, like the three pointer fields of the Go struct. */
  datatype TiltfileStatus = TiltfileStatus(
    waiting: Option<StateWaiting>,
    running: Option<StateRunning>,
    terminated: Option<StateTerminated>)

  /** A status object with none of its sub-states set, as on a freshly created resource. */
  const EmptyStatus := TiltfileStatus(None, None, None)

  /** The Tiltfile resource as fetched from the API server. */
  datatype Tiltfile = Tiltfile(spec: Spec, status: TiltfileStatus, deleting: bool)

  /** The manual trigger queue: the names it holds, each with the reason it carries. */
  type TriggerQueue = map<Name, BuildReason>

  /** The reconciler's own state: the run registry and the load counter. */
  datatype Controller = Controller(runs: map<Name, Run>, loadCount: nat)

  const InitialController := Controller(map[], 0)

  /** The manifest name of the main Tiltfile. */
  const MainTiltfileName := "(Tiltfile)"

  const NoResourcesMessage := "No resources found. Check out https://docs.tilt.dev/tutorial.html to get started!"
  const DockerPrefix := "Failed to connect to Docker: "
  const CanceledMessage := "build canceled"

  /** The text `Error()` returns for each kind of load error. */
  function ErrorText(e: LoadError): (text: string)
    ensures e.EvalError? ==> text == e.message
    ensures e == BuildCanceled ==> text == CanceledMessage
    ensures e == NoResources ==> text == NoResourcesMessage
    ensures e.DockerUnreachable? ==> DockerPrefix <= text && text[|DockerPrefix|..] == e.cause
    ensures e != EvalError("") ==> text != ""
  {
    match e
    case EvalError(m) => m
    case NoResources => NoResourcesMessage
    case DockerUnreachable(cause) => DockerPrefix + cause
    case BuildCanceled => CanceledMessage
  }
}
