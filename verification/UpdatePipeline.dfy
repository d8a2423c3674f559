/** The two ways to update a project: Engine.Update, which answers a request, and
    runUpdateJob, which runs inside a tracked job. */
module UpdatePipeline {

  datatype Stage = Hook | Preflight | Pull | UpPreflight | Up | Verify

  datatype Result = Result(success: bool, exitCode: int)

  /** How the environment answers. `upPreflight` is the identity check that Engine.Up
      makes once more before bringing the project up. */
  datatype Env = Env(
    hasHook: bool,
    hook: Result,
    preflight: Result,
    pull: Result,
    upPreflight: Result,
    up: Result,
    verify: Result)

  function Answer(e: Env, s: Stage): Result {
    match s
    case Hook => e.hook
    case Preflight => e.preflight
    case Pull => e.pull
    case UpPreflight => e.upPreflight
    case Up => e.up
    case Verify => e.verify
  }

  /** The stages an update must pass, in order. */
  function Stages(e: Env, engine: bool): seq<Stage> {
    if e.hasHook then [Hook]
    else [Preflight, Pull] + (if engine then [UpPreflight] else []) + [Up, Verify]
  }

  /** `ran` is a run of the stages: in order, stopping at the first failure, and the
      result is that of the last stage run. */
  ghost predicate RunsStages(e: Env, stages: seq<Stage>, ran: seq<Stage>, r: Result) {
    && 0 < |ran| && ran <= stages
    && (forall i :: 0 <= i < |ran| - 1 ==> Answer(e, ran[i]).success)
    && r == Answer(e, ran[|ran| - 1])
    && (r.success ==> ran == stages)
  }

  /** Engine.Update of a project that is not the controller: the list of results it
      returns, whose last one is patched with the verification's outcome. */
  method EngineUpdate(e: Env) returns (results: seq<Result>, ran: seq<Stage>)
    ensures |results| > 0 && RunsStages(e, Stages(e, true), ran, results[|results| - 1])
    ensures forall i :: 0 <= i < |results| - 1 ==> results[i].success
  {
    if e.hasHook {
      return [e.hook], [Hook];
    }
    ran := [Preflight];
    if !e.preflight.success {
      return [e.preflight], ran;
    }
    results := [e.pull];
    ran := ran + [Pull];
    if e.pull.success {
      var up := e.upPreflight;
      ran := ran + [UpPreflight];
      if e.upPreflight.success {
        up := e.up;
        ran := ran + [Up];
      }
      if up.success {
        up := up.(success := e.verify.success, exitCode := e.verify.exitCode);
        ran := ran + [Verify];
      }
      results := results + [up];
    }
  }

  /** runUpdateJob: the success flag and exit code it leaves in the job. */
  method RunUpdateJob(e: Env) returns (job: Result, ran: seq<Stage>)
    ensures RunsStages(e, Stages(e, false), ran, job)
  {
    if e.hasHook {
      return e.hook, [Hook];
    }
    ran := [Preflight];
    if !e.preflight.success {
      return Result(false, e.preflight.exitCode), ran;
    }
    ran := ran + [Pull];
    if !e.pull.success {
      return Result(false, e.pull.exitCode), ran;
    }
    ran := ran + [Up];
    if !e.up.success {
      return Result(false, e.up.exitCode), ran;
    }
    ran := ran + [Verify];
    return e.verify, ran;
  }

  lemma FirstFailure(e: Env, stages: seq<Stage>, ran: seq<Stage>, r: Result, i: nat)
    requires RunsStages(e, stages, ran, r) && i < |stages|
    requires !Answer(e, stages[i]).success && forall j :: 0 <= j < i ==> Answer(e, stages[j]).success
    ensures r == Answer(e, stages[i])
  {
    assert ran == stages[..|ran|];
    assert |ran| - 1 == i;
  }

  /** What runs, exactly, and in which order: no project comes up before its images were
      pulled, and none is verified before it came up. */
  lemma RunsExactly(e: Env, engine: bool, ran: seq<Stage>, r: Result)
    requires RunsStages(e, Stages(e, engine), ran, r)
    ensures Hook in ran <==> e.hasHook
    ensures Preflight in ran <==> !e.hasHook
    ensures Pull in ran <==> !e.hasHook && e.preflight.success
    ensures UpPreflight in ran <==> engine && Pull in ran && e.pull.success
    ensures Up in ran <==> Pull in ran && e.pull.success && (engine ==> e.upPreflight.success)
    ensures Verify in ran <==> Up in ran && e.up.success
    ensures forall i, j :: 0 <= i < j < |ran| ==> Rank(ran[i]) < Rank(ran[j])
    ensures r == (if e.hasHook then e.hook
                  else if !e.preflight.success then e.preflight
                  else if !e.pull.success then e.pull
                  else if engine && !e.upPreflight.success then e.upPreflight
                  else if !e.up.success then e.up
                  else e.verify)
  {
    RanIs(e, engine, ran, r);
    assert r == Answer(e, ran[|ran| - 1]);
    hide RunsStages;
  }

  /** The stages run, spelled out. */
  lemma RanIs(e: Env, engine: bool, ran: seq<Stage>, r: Result)
    requires RunsStages(e, Stages(e, engine), ran, r)
    ensures ran == if e.hasHook then [Hook]
                   else if !e.preflight.success then [Preflight]
                   else if !e.pull.success then [Preflight, Pull]
                   else if engine then
                     (if !e.upPreflight.success then [Preflight, Pull, UpPreflight]
                      else if !e.up.success then [Preflight, Pull, UpPreflight, Up]
                      else [Preflight, Pull, UpPreflight, Up, Verify])
                   else if !e.up.success then [Preflight, Pull, Up]
                   else [Preflight, Pull, Up, Verify]
  {
    var stages := Stages(e, engine);
    if e.hasHook {
      assert stages == [Hook];
    } else {
      assert stages == if engine then [Preflight, Pull, UpPreflight, Up, Verify] else [Preflight, Pull, Up, Verify];
      RanFurther(e, stages, ran, r, 1);
      RanFurther(e, stages, ran, r, 2);
      RanFurther(e, stages, ran, r, 3);
      if engine { RanFurther(e, stages, ran, r, 4); }
    }
    assert ran == stages[..|ran|];
  }

  /** A stage is reached exactly when the one before it was, and succeeded. */
  lemma RanFurther(e: Env, stages: seq<Stage>, ran: seq<Stage>, r: Result, i: nat)
    requires RunsStages(e, stages, ran, r) && 0 < i < |stages|
    ensures i < |ran| <==> i - 1 < |ran| && Answer(e, stages[i - 1]).success
  {
    assert forall k :: 0 <= k < |ran| ==> ran[k] == stages[k];
  }

  function Rank(s: Stage): nat {
    match s
    case Hook => 0 case Preflight => 1 case Pull => 2 case UpPreflight => 3 case Up => 4 case Verify => 5
  }

  /** Success needs every stage, in both forms. */
  lemma SuccessNeedsAll(e: Env, stages: seq<Stage>, ran: seq<Stage>, r: Result)
    requires RunsStages(e, stages, ran, r)
    ensures r.success <==> forall i :: 0 <= i < |stages| ==> Answer(e, stages[i]).success
  {
    assert ran == stages[..|ran|];
    if r.success {
      assert stages == ran;
    } else {
      assert !Answer(e, stages[|ran| - 1]).success;
    }
  }

  /** The two updates agree on success and exit code whenever the environment answers
      consistently: the repeated identity check passes as the first one did. They can
      disagree only when it does not. */
  lemma UpdatesAgree(e: Env, ranE: seq<Stage>, r: Result, ranJ: seq<Stage>, job: Result)
    requires RunsStages(e, Stages(e, true), ranE, r) && RunsStages(e, Stages(e, false), ranJ, job)
    requires e.upPreflight.success
    ensures r.success == job.success && (r.success ==> r == job == (if e.hasHook then e.hook else e.verify))
    ensures r.exitCode == job.exitCode
  {
    var se, sj := Stages(e, true), Stages(e, false);
    SuccessNeedsAll(e, se, ranE, r);
    SuccessNeedsAll(e, sj, ranJ, job);
    if e.hasHook {
      assert se == sj == [Hook];
    } else {
      assert se == [Preflight, Pull, UpPreflight, Up, Verify] && sj == [Preflight, Pull, Up, Verify];
      if !e.preflight.success {
        FirstFailure(e, se, ranE, r, 0);
        FirstFailure(e, sj, ranJ, job, 0);
      } else if !e.pull.success {
        FirstFailure(e, se, ranE, r, 1);
        FirstFailure(e, sj, ranJ, job, 1);
      } else if !e.up.success {
        FirstFailure(e, se, ranE, r, 3);
        FirstFailure(e, sj, ranJ, job, 2);
      } else if !e.verify.success {
        FirstFailure(e, se, ranE, r, 4);
        FirstFailure(e, sj, ranJ, job, 3);
      }
    }
  }

  /** Exactly when the two agree on success. */
  lemma UpdatesAgreeExactly(e: Env, ranE: seq<Stage>, r: Result, ranJ: seq<Stage>, job: Result)
    requires RunsStages(e, Stages(e, true), ranE, r) && RunsStages(e, Stages(e, false), ranJ, job)
    ensures r.success == job.success
       <==> e.hasHook || e.upPreflight.success || !(e.preflight.success && e.pull.success && e.up.success && e.verify.success)
  {
    var se, sj := Stages(e, true), Stages(e, false);
    SuccessNeedsAll(e, se, ranE, r);
    SuccessNeedsAll(e, sj, ranJ, job);
    if e.hasHook {
      assert se == sj == [Hook];
    } else {
      assert se == [Preflight, Pull, UpPreflight, Up, Verify] && sj == [Preflight, Pull, Up, Verify];
      assert Answer(e, se[2]) == e.upPreflight;
      assert Answer(e, sj[0]) == e.preflight && Answer(e, sj[1]) == e.pull && Answer(e, sj[2]) == e.up && Answer(e, sj[3]) == e.verify;
      assert Answer(e, se[0]) == e.preflight && Answer(e, se[1]) == e.pull && Answer(e, se[3]) == e.up && Answer(e, se[4]) == e.verify;
    }
  }

  /** When the repeated check alone fails, the engine reports a failure and the job does
      not: consistency of the environment is needed. */
  lemma InconsistentPreflight(e: Env, ranE: seq<Stage>, r: Result, ranJ: seq<Stage>, job: Result)
    requires RunsStages(e, Stages(e, true), ranE, r) && RunsStages(e, Stages(e, false), ranJ, job)
    requires !e.hasHook && e.preflight.success && e.pull.success && !e.upPreflight.success && e.up.success && e.verify.success
    ensures !r.success && r == e.upPreflight && job == e.verify && job.success
  {
    var se, sj := Stages(e, true), Stages(e, false);
    assert se == [Preflight, Pull, UpPreflight, Up, Verify] && sj == [Preflight, Pull, Up, Verify];
    FirstFailure(e, se, ranE, r, 2);
    SuccessNeedsAll(e, sj, ranJ, job);
  }
}
