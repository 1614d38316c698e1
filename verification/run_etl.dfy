/** `run_etl.py`: the plain runner. It runs the three scripts once each, in
    order, and stops at the first one that fails. */
module RunEtl {
  import opened Subprocess
  import Autoload

  datatype Step = Step(script: string, description: string)

  const Steps: seq<Step> := [
    Step("load_dimensions.py", "Load Dimension Tables"),
    Step("load_facts.py", "Load Fact Tables"),
    Step("verify_warehouse.py", "Verify Data Warehouse")
  ]

  /** `run_script`: the child's output goes straight to the terminal, so
      only its return code matters; an exception counts as failure. */
  function RunScript(o: Outcome): (success: bool)
    ensures success <==> Succeeded(o)
    ensures o.Raised? ==> !success
  {
    match o
    case Exited(code, _, _) => code == 0
    case Raised(_) => false
  }

  /** For a child that behaves the same on every attempt, this runner's
      verdict agrees with the automated runner's under any retry setting:
      both accept exactly exit code 0, and retrying an outcome that does not
      change never turns failure into success. */
  lemma SameVerdictAsAutoload(o: Outcome, retries: int)
    ensures RunScript(o) <==> Autoload.SucceedsWithin(k => o, Autoload.MaxAttempts(retries, Autoload.MaxRetries))
  {
    var always: nat -> Outcome := k => o;
    if RunScript(o) {
      assert Succeeded(always(1));
    }
  }

  /** `main`. `run(script)` is the outcome of running `script`. Returns the
      recorded (description, success) pairs and the exit code. */
  method RunEtlMain(run: string -> Outcome) returns (results: seq<(string, bool)>, code: int)
    ensures 1 <= |results| <= |Steps|
    ensures forall i :: 0 <= i < |results| ==>
              results[i] == (Steps[i].description, Succeeded(run(Steps[i].script)))
    ensures forall i :: 0 <= i < |results| - 1 ==> results[i].1
    ensures |results| < |Steps| ==> !results[|results| - 1].1
    ensures code == 0 <==> forall i :: 0 <= i < |Steps| ==> Succeeded(run(Steps[i].script))
    ensures code == 1 <==> exists i :: 0 <= i < |Steps| && !Succeeded(run(Steps[i].script))
  {
    results := [];
    var i := 0;
    var stopped := false;
    while i < |Steps| && !stopped
      invariant 0 <= i <= |Steps|
      invariant |results| == i
      invariant forall j :: 0 <= j < i ==> results[j] == (Steps[j].description, Succeeded(run(Steps[j].script)))
      invariant forall j :: 0 <= j < i - 1 ==> results[j].1
      invariant stopped <==> i > 0 && !results[i - 1].1
    {
      var success := RunScript(run(Steps[i].script));
      results := results + [(Steps[i].description, success)];
      stopped := !success;
      i := i + 1;
    }
    var allSuccess := forall j | 0 <= j < |results| :: results[j].1;
    code := if allSuccess then 0 else 1;
  }
}
