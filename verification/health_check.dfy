/**
 * The health-check route's status object. The process environment is
 * abstracted as the value of its commit-hash variable, when it is set.
 */
module HealthCheck {
  import opened Wrappers

  /**
   * Builds the status dictionary: `status` is always "ok", and `git` is
   * present, holding the commit hash, exactly when a commit hash is known.
   */
  method Status(commitHash: Option<string>) returns (status: map<string, string>)
    ensures "status" in status && status["status"] == "ok"
    ensures "git" in status <==> commitHash.Some?
    ensures commitHash.Some? ==> status["git"] == commitHash.value
    ensures status.Keys <= {"status", "git"}
  {
    status := map["status" := "ok"];
    if commitHash.Some? {
      status := status["git" := commitHash.value];
    }
  }
}
