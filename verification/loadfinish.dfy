/**
 What a run does with the loader's result before installing it: the onboarding
 hint for an empty main Tiltfile, the orchestrator selection, the Docker
 connectivity check, and the cancellation override.
 */
module LoadFinish {
  import opened Types

  /** Some manifest of the result deploys to orchestrator `o`. */
  predicate HasOrchestrator(tlr: LoadResult, o: Orchestrator) {
    exists i :: 0 <= i < |tlr.manifests| && tlr.manifests[i].orchestrator == Some(o)
  }

  /** Some image target of some manifest is built with Docker. */
  predicate HasDockerBuild(tlr: LoadResult) {
    exists i, j :: 0 <= i < |tlr.manifests| && 0 <= j < |tlr.manifests[i].imageTargets|
      && tlr.manifests[i].imageTargets[j].dockerBuild
  }

  /** The result needs a Docker daemon: Docker Compose is used, or an image is built with Docker. */
  predicate NeedsDocker(tlr: LoadResult) {
    HasOrchestrator(tlr, DockerCompose) || HasDockerBuild(tlr)
  }

  /** requiresDocker, scanning the manifests and their image targets in order. */
  method RequiresDocker(tlr: LoadResult) returns (b: bool)
    ensures b <==> NeedsDocker(tlr)
  {
    if HasOrchestrator(tlr, DockerCompose) {
      return true;
    }
    var i := 0;
    while i < |tlr.manifests|
      invariant 0 <= i <= |tlr.manifests|
      invariant forall i', j :: 0 <= i' < i && 0 <= j < |tlr.manifests[i'].imageTargets|
                  ==> !tlr.manifests[i'].imageTargets[j].dockerBuild
    {
      var targets := tlr.manifests[i].imageTargets;
      var j := 0;
      while j < |targets|
        invariant 0 <= j <= |targets|
        invariant forall j' :: 0 <= j' < j ==> !targets[j'].dockerBuild
      {
        if targets[j].dockerBuild {
          return true;
        }
        j := j + 1;
      }
      i := i + 1;
    }
    return false;
  }

  /** The orchestrator the Docker client is switched to: Kubernetes wins over Docker Compose. */
  function SelectedOrchestrator(tlr: LoadResult): (o: Option<Orchestrator>)
    ensures o == Some(K8s) <==> HasOrchestrator(tlr, K8s)
    ensures o == Some(DockerCompose) <==> !HasOrchestrator(tlr, K8s) && HasOrchestrator(tlr, DockerCompose)
    ensures o.None? <==> !HasOrchestrator(tlr, K8s) && !HasOrchestrator(tlr, DockerCompose)
  {
    if HasOrchestrator(tlr, K8s) then Some(K8s)
    else if HasOrchestrator(tlr, DockerCompose) then Some(DockerCompose)
    else None
  }

  /** Selecting Docker Compose implies the Docker check will be made. */
  lemma ComposeSelectionNeedsDocker(tlr: LoadResult)
    requires SelectedOrchestrator(tlr) == Some(DockerCompose)
    ensures NeedsDocker(tlr)
  {
  }

  /** The onboarding condition: a successful, empty load of the main Tiltfile. */
  predicate EmptyMainLoad(tlr: LoadResult, isMain: bool) {
    tlr.error.None? && |tlr.manifests| == 0 && isMain
  }

  /**
   The error finalisation of a run. `isMain` says the Tiltfile is the main one,
   `dockerErr` is what the Docker connectivity check would report, and
   `canceled` is the state of the run's context.
   */
  function FinalizeResult(loaded: LoadResult, isMain: bool, dockerErr: Option<string>, canceled: bool): (r: LoadResult)
    // Only the error is ever rewritten.
    ensures r.manifests == loaded.manifests && r.configFiles == loaded.configFiles
    // Cancellation always wins.
    ensures canceled ==> r.error == Some(BuildCanceled)
    // An evaluation error is never overwritten, except by cancellation.
    ensures !canceled && loaded.error.Some? ==> r.error == loaded.error
    // The onboarding hint appears exactly for an uncanceled, successful, empty main load.
    ensures r.error == Some(NoResources) <==>
      !canceled && (EmptyMainLoad(loaded, isMain) || loaded.error == Some(NoResources))
    // A Docker failure is recorded exactly when nothing else explains the result.
    ensures (!canceled && loaded.error.None? && !EmptyMainLoad(loaded, isMain)) ==>
      (r.error.Some? <==> NeedsDocker(loaded) && dockerErr.Some?)
    ensures (!canceled && loaded.error.None? && !EmptyMainLoad(loaded, isMain) && r.error.Some?) ==>
      r.error == Some(DockerUnreachable(dockerErr.value))
    ensures r.error.None? <==>
      !canceled && loaded.error.None? && !EmptyMainLoad(loaded, isMain) && !(NeedsDocker(loaded) && dockerErr.Some?)
  {
    var hinted := if EmptyMainLoad(loaded, isMain) then loaded.(error := Some(NoResources)) else loaded;
    var checked :=
      if NeedsDocker(hinted) && hinted.error.None? && dockerErr.Some?
      then hinted.(error := Some(DockerUnreachable(dockerErr.value)))
      else hinted;
    if canceled then checked.(error := Some(BuildCanceled)) else checked
  }
}
