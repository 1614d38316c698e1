/** `autoload_etl.py`: the retrying pipeline driver `ETLAutomation`. The
    child scripts, the database probe, the quality queries and the clock
    are parameters; logging, the snapshot file and notifications are not
    modelled. */
module Autoload {
  import opened Values
  import opened Text
  import opened PyInt
  import opened Subprocess
  import opened Checkpoint

  /** `ETL_CONFIG`. */
  const MaxRetries: int := 3
  /** Seconds slept before every attempt after the first. */
  const RetryDelay: nat := 5

  const DimensionsScript: string := "load_dimensions.py"
  const FactsScript: string := "load_facts.py"
  const VerificationScript: string := "verify_warehouse.py"

  /** `max_attempts` of `run_script`: `max_retries` when `retries` is truthy
      (a non-zero int; `False` is 0), otherwise a single attempt. */
  function MaxAttempts(retries: int, maxRetries: int): int {
    if retries != 0 then maxRetries else 1
  }

  /** Some attempt numbered 1 to `n` exits with code 0. */
  ghost predicate SucceedsWithin(outcome: nat -> Outcome, n: int) {
    exists k :: 1 <= k <= n && Succeeded(outcome(k))
  }

  /** The checkpoint status and details written after a last failed attempt. */
  function FailureStatus(o: Outcome): Status {
    if o.Exited? then Failed else Error
  }

  function FailureDetails(o: Outcome): Details {
    match o
    case Exited(code, _, stderr) => ExitFailure(stderr, code)
    case Raised(message) => Exception(message)
  }

  /** The text `run_script` returns with a failure: stderr or the exception's message. */
  function FailureOutput(o: Outcome): string {
    match o
    case Exited(_, _, stderr) => stderr
    case Raised(message) => message
  }

  /** What `run_script` returns, together with the checkpoint map it leaves,
      the number of attempts it made and the seconds it slept. */
  datatype ScriptRun = ScriptRun(success: bool, output: string, store: Store, attempts: nat, waited: nat)

  /** `ETLAutomation.run_script`. `outcome(k)` is what attempt `k` (from 1)
      comes back with; `clock(k)` is the time of the checkpoint written
      during attempt `k`. */
  method RunScript(store: Store, script: string, description: string, retries: int, maxRetries: int,
                   outcome: nat -> Outcome, clock: nat -> string) returns (run: ScriptRun)
    ensures run.success <==> SucceedsWithin(outcome, MaxAttempts(retries, maxRetries))
    ensures run.success ==>
              && 1 <= run.attempts <= MaxAttempts(retries, maxRetries)
              && Succeeded(outcome(run.attempts))
              && (forall k :: 1 <= k < run.attempts ==> !Succeeded(outcome(k)))
              && run.output == outcome(run.attempts).stdout
              && run.store == Save(store, script, Success, clock(run.attempts), Attempt(run.attempts, description))
    ensures !run.success && MaxAttempts(retries, maxRetries) >= 1 ==>
              && run.attempts == MaxAttempts(retries, maxRetries)
              && run.output == FailureOutput(outcome(run.attempts))
              && run.store == Save(store, script, FailureStatus(outcome(run.attempts)), clock(run.attempts),
                                   FailureDetails(outcome(run.attempts)))
    ensures MaxAttempts(retries, maxRetries) < 1 ==> run == ScriptRun(false, "Max retries reached", store, 0, 0)
    ensures run.attempts >= 1 ==> run.waited == RetryDelay * (run.attempts - 1)
  {
    var maxAttempts := MaxAttempts(retries, maxRetries);
    var attempt: nat := 0;
    var waited: nat := 0;
    while attempt < maxAttempts
      invariant maxAttempts >= 1 ==> attempt < maxAttempts
      invariant maxAttempts < 1 ==> attempt == 0
      invariant forall k :: 1 <= k <= attempt ==> !Succeeded(outcome(k))
      invariant waited == if attempt == 0 then 0 else RetryDelay * (attempt - 1)
      decreases maxAttempts - attempt
    {
      attempt := attempt + 1;
      if attempt > 1 {
        waited := waited + RetryDelay;
      }
      var o := outcome(attempt);
      if Succeeded(o) {
        var saved := Save(store, script, Success, clock(attempt), Attempt(attempt, description));
        return ScriptRun(true, o.stdout, saved, attempt, waited);
      }
      if attempt >= maxAttempts {
        var saved := Save(store, script, FailureStatus(o), clock(attempt), FailureDetails(o));
        return ScriptRun(false, FailureOutput(o), saved, attempt, waited);
      }
    }
    return ScriptRun(false, "Max retries reached", store, attempt, waited);
  }

  /** The three counts and the orphan count that `validate_data_quality`
      queries (`dim_player`, `fact_player_performance`, `fact_market_value`,
      and performance rows whose `player_sk` matches no player). */
  datatype QualityCounts = QualityCounts(players: nat, performances: nat, marketValues: nat, orphans: nat)

  /** The mark whose presence in a check line means that check passed. */
  const Passed: string := "✅"

  function CountCheck(table: string, count: nat): string {
    if count == 0 then "❌ " + table + ": 0 lignes (attendu > 0)"
    else "✅ " + table + ": " + FormatGrouped(count) + " lignes"
  }

  function OrphanCheck(orphans: nat): string {
    if orphans > 0 then "⚠️  " + FormatNat(orphans) + " enregistrements" + " orphelins dans" + " fact_player_performance"
    else "✅ Intégrité référentielle: OK"
  }

  function QualityChecks(c: QualityCounts): seq<string> {
    [CountCheck("dim_player", c.players),
     CountCheck("fact_player_performance", c.performances),
     CountCheck("fact_market_value", c.marketValues),
     OrphanCheck(c.orphans)]
  }

  lemma CountCheckPasses(table: string, count: nat)
    requires '✅' !in table
    ensures Contains(CountCheck(table, count), Passed) <==> count > 0
  {
    var line := CountCheck(table, count);
    ContainsChar(line, '✅');
    if count > 0 {
      assert line[0] == '✅';
    } else {
      assert line == "❌ " + table + ": 0 lignes (attendu > 0)";
    }
  }

  lemma OrphanCheckPasses(orphans: nat)
    ensures Contains(OrphanCheck(orphans), Passed) <==> orphans == 0
  {
    var line := OrphanCheck(orphans);
    ContainsChar(line, '✅');
    if orphans > 0 {
      var d := FormatNat(orphans);
      assert '✅' !in d by {
        forall i | 0 <= i < |d| ensures d[i] != '✅' {
          assert IsDigit(d[i]);
        }
      }
      assert '✅' !in "⚠️  ";
      assert '✅' !in " enregistrements";
      assert '✅' !in " orphelins dans";
      assert '✅' !in " fact_player_performance";
    } else {
      assert line[0] == '✅';
    }
  }

  /** Every line of the quality report carries the pass mark exactly when
      the three counts are positive and there are no orphans. */
  lemma QualityChecksPass(c: QualityCounts)
    ensures (forall i | 0 <= i < |QualityChecks(c)| :: Contains(QualityChecks(c)[i], Passed)) <==>
            c.players > 0 && c.performances > 0 && c.marketValues > 0 && c.orphans == 0
  {
    var checks := QualityChecks(c);
    CountCheckPasses("dim_player", c.players);
    CountCheckPasses("fact_player_performance", c.performances);
    CountCheckPasses("fact_market_value", c.marketValues);
    OrphanCheckPasses(c.orphans);
    assert checks[0] == CountCheck("dim_player", c.players);
    assert checks[1] == CountCheck("fact_player_performance", c.performances);
    assert checks[2] == CountCheck("fact_market_value", c.marketValues);
    assert checks[3] == OrphanCheck(c.orphans);
  }

  /** `validate_data_quality`: true exactly when every check line carries the
      pass mark. `None` stands for any exception while querying, which
      yields false. */
  function ValidateDataQuality(counts: Option<QualityCounts>): (r: bool)
    ensures r <==> && counts.Some?
                   && counts.value.players > 0
                   && counts.value.performances > 0
                   && counts.value.marketValues > 0
                   && counts.value.orphans == 0
  {
    match counts
    case None => false
    case Some(c) =>
      QualityChecksPass(c);
      var checks := QualityChecks(c);
      forall i | 0 <= i < |checks| :: Contains(checks[i], Passed)
  }

  /** Everything the pipeline depends on outside itself. `clock(script)(k)`
      is the time of the checkpoint written during attempt `k` of `script`. */
  datatype Environment = Environment(
    dbReachable: bool,
    dimensions: nat -> Outcome,
    facts: nat -> Outcome,
    quality: Option<QualityCounts>,
    verification: nat -> Outcome,
    clock: string -> nat -> string)

  /** The phase results `run_full_pipeline` records, in order. */
  const PhaseNames: seq<string> := ["Dimensions", "Faits", "Validation Qualité", "Vérification"]

  datatype PipelineRun = PipelineRun(ok: bool, results: seq<(string, bool)>, store: Store)

  /** Reachable database, both loads within three attempts, quality passes
      and the verification script succeeds on its only attempt. */
  ghost predicate PipelineSucceeds(env: Environment) {
    && env.dbReachable
    && SucceedsWithin(env.dimensions, MaxRetries)
    && SucceedsWithin(env.facts, MaxRetries)
    && ValidateDataQuality(env.quality)
    && SucceedsWithin(env.verification, 1)
  }

  /** One phase of `run_full_pipeline`: `run_script` seen only through its
      verdict and the checkpoint entry it leaves for `script`. */
  method RunPhase(store: Store, script: string, description: string, retries: int,
                  outcome: nat -> Outcome, clock: nat -> string) returns (success: bool, saved: Store)
    ensures success <==> SucceedsWithin(outcome, MaxAttempts(retries, MaxRetries))
    ensures saved.Keys == store.Keys + {script}
    ensures forall k :: k in store && k != script ==> saved[k] == store[k]
    ensures saved[script].status == Success <==> success
  {
    var run := RunScript(store, script, description, retries, MaxRetries, outcome, clock);
    success, saved := run.success, run.store;
  }

  /** `ETLAutomation.run_full_pipeline`. */
  method RunFullPipeline(store: Store, env: Environment) returns (p: PipelineRun)
    ensures !env.dbReachable ==> p == PipelineRun(false, [], store)
    ensures |p.results| <= |PhaseNames|
    ensures forall i :: 0 <= i < |p.results| ==> p.results[i].0 == PhaseNames[i]
    ensures env.dbReachable ==> |p.results| >= 1 && p.results[0].1 == SucceedsWithin(env.dimensions, MaxRetries)
    ensures |p.results| >= 2 ==> p.results[0].1 && p.results[1].1 == SucceedsWithin(env.facts, MaxRetries)
    ensures |p.results| >= 3 ==>
              && |p.results| == 4
              && p.results[1].1
              && p.results[2].1 == ValidateDataQuality(env.quality)
              && p.results[3].1 == SucceedsWithin(env.verification, 1)
    ensures 0 < |p.results| < 4 ==> !p.results[|p.results| - 1].1
    ensures env.dbReachable && SucceedsWithin(env.dimensions, MaxRetries) && SucceedsWithin(env.facts, MaxRetries) ==>
              |p.results| == 4
    ensures p.ok <==> |p.results| == 4 && forall i :: 0 <= i < 4 ==> p.results[i].1
    ensures p.ok <==> PipelineSucceeds(env)
    ensures forall k :: k in store && k != DimensionsScript && k != FactsScript && k != VerificationScript ==>
              k in p.store && p.store[k] == store[k]
    ensures p.store.Keys <= store.Keys + {DimensionsScript, FactsScript, VerificationScript}
    ensures env.dbReachable ==>
              DimensionsScript in p.store &&
              (p.store[DimensionsScript].status == Success <==> SucceedsWithin(env.dimensions, MaxRetries))
  {
    if !env.dbReachable {
      return PipelineRun(false, [], store);
    }
    var dimsOk, factsOk, afterLoads := RunLoads(store, env);
    if !dimsOk {
      return PipelineRun(false, [(PhaseNames[0], false)], afterLoads);
    }
    if !factsOk {
      return PipelineRun(false, [(PhaseNames[0], true), (PhaseNames[1], false)], afterLoads);
    }
    var qualityOk := ValidateDataQuality(env.quality);
    var verified, afterVerification := RunPhase(afterLoads, VerificationScript, "Vérification complète du Data Warehouse",
                                                0, env.verification, env.clock(VerificationScript));
    var results := [(PhaseNames[0], true), (PhaseNames[1], true), (PhaseNames[2], qualityOk), (PhaseNames[3], verified)];
    var allSuccess := forall i | 0 <= i < |results| :: results[i].1;
    return PipelineRun(allSuccess, results, afterVerification);
  }

  /** Phases 1 and 2 of `run_full_pipeline`: the dimension load, then the
      fact load only when the dimension load succeeded. */
  method RunLoads(store: Store, env: Environment) returns (dimsOk: bool, factsOk: bool, saved: Store)
    ensures dimsOk <==> SucceedsWithin(env.dimensions, MaxRetries)
    ensures factsOk <==> dimsOk && SucceedsWithin(env.facts, MaxRetries)
    ensures saved.Keys == store.Keys + {DimensionsScript} + (if dimsOk then {FactsScript} else {})
    ensures forall k :: k in store && k != DimensionsScript && k != FactsScript ==> saved[k] == store[k]
    ensures saved[DimensionsScript].status == Success <==> dimsOk
  {
    dimsOk, saved := RunPhase(store, DimensionsScript, "Dimensions (Agent, Team, Competition, Season, Injury, Player)",
                              MaxRetries, env.dimensions, env.clock(DimensionsScript));
    factsOk := false;
    if dimsOk {
      factsOk, saved := RunPhase(saved, FactsScript, "Faits (Performance, Market Value, Transfer, Injury, etc.)",
                                 MaxRetries, env.facts, env.clock(FactsScript));
    }
  }

  /** `main`: exit status 0 or 1 from the pipeline's verdict, 2 when the run
      is interrupted from the keyboard, 3 when constructing `ETLAutomation`
      raises because the checkpoint file cannot be read as a checkpoint map.
      `sys.exit` raises `SystemExit`, which neither handler catches, so 0
      and 1 reach the caller unchanged. */
  method AutoloadMain(file: Option<Result<Store, string>>, env: Environment, interrupted: bool) returns (code: int)
    ensures code == 3 <==> Load(file).Err?
    ensures Load(file).Ok? && interrupted ==> code == 2
    ensures Load(file).Ok? && !interrupted ==> (code == 0 <==> PipelineSucceeds(env))
    ensures Load(file).Ok? && !interrupted ==> (code == 1 <==> !PipelineSucceeds(env))
  {
    match Load(file)
    case Err(_) =>
      return 3;
    case Ok(store) =>
      if interrupted {
        return 2;
      }
      var p := RunFullPipeline(store, env);
      return if p.ok then 0 else 1;
  }
}
