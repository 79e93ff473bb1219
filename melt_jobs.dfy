/** Render jobs (`run_melt_render`, `cancel_melt_render`): the shared map from
    job id to its cancellation flag, and what a render reports. The mutex
    around the map is modelled only by whether taking it fails (a poisoned
    lock); the temp directory and the XML write enter as their outcomes. */
module MeltJobs {
  import opened Wrappers
  import opened MeltLocate
  import opened MeltCommand

  /** What `to_string` gives for a poisoned lock. */
  const POISONED: string := "poisoned lock: another task failed inside"

  const MELT_MISSING: string := "melt not found on system"

  /** `RenderResult`. */
  datatype RenderResult = RenderResult(success: bool, error: Option<string>, outputPath: Option<string>)

  /** What a finished render reports: success with the output file when melt
      exits successfully, otherwise failure with melt's error output. */
  function RenderOutcome(outputPath: string, out: ProcessOutput): (r: RenderResult)
    ensures r.success <==> Succeeded(out)
    ensures r.success <==> r.outputPath.Some?
    ensures r.success <==> r.error.None?
    ensures r.outputPath.Some? ==> r.outputPath.value == outputPath
    ensures r.error.Some? ==> r.error.value == "melt exited with error: " + out.stderr
  {
    if Succeeded(out) then RenderResult(true, None, Some(outputPath))
    else RenderResult(false, Some("melt exited with error: " + out.stderr), None)
  }

  /** A render ready to run: the melt program and its arguments. */
  datatype Launch = Launch(meltPath: string, args: seq<string>)

  /** The steps before the job is registered: finding melt, the temp
      directory, writing the job's XML file; then the command to run. */
  function PlanRender(jobId: string, outputPath: string, options: RenderOptions, run: Runner,
                      tempDir: Result<string, string>, writeError: Option<string>): (r: Result<Launch, string>)
    ensures LocateMelt(run).None? ==> r == Err(MELT_MISSING)
    ensures LocateMelt(run).Some? && tempDir.Err? ==> r == Err(tempDir.error)
    ensures LocateMelt(run).Some? && tempDir.Ok? && writeError.Some? ==>
      r == Err("Failed to write MLT XML: " + writeError.value)
    ensures r.Ok? <==> LocateMelt(run).Some? && tempDir.Ok? && writeError.None?
    ensures r.Ok? ==> r.value.meltPath == LocateMelt(run).value
    ensures r.Ok? ==> r.value.args == RenderArgs(XmlPath(tempDir.value, jobId), outputPath, options)
  {
    match LocateMelt(run)
    case None => Err(MELT_MISSING)
    case Some(melt) =>
      match tempDir
      case Err(e) => Err(e)
      case Ok(dir) =>
        if writeError.Some? then Err("Failed to write MLT XML: " + writeError.value)
        else Ok(Launch(melt, RenderArgs(XmlPath(dir, jobId), outputPath, options)))
  }

  lemma UpdateTwice(m: map<string, bool>, k: string, v: bool, w: bool)
    ensures m[k := v][k := w] == m[k := w]
  {
  }

  lemma RemoveAfterUpdate(m: map<string, bool>, k: string, v: bool)
    ensures m[k := v] - {k} == m - {k}
  {
  }

  class MeltState {
    /** Job id to whether its cancellation was requested. */
    var activeJobs: map<string, bool>

    /** `MeltState::new`: no jobs. */
    constructor ()
      ensures activeJobs == map[]
    {
      activeJobs := map[];
    }

    /** `cancel_melt_render`: marks a registered job as cancelled and says
        whether it was registered; an unknown id changes nothing. */
    method Cancel(jobId: string, poisoned: bool) returns (r: Result<bool, string>)
      modifies this
      ensures poisoned ==> r == Err(POISONED) && activeJobs == old(activeJobs)
      ensures !poisoned ==> r == Ok(jobId in old(activeJobs))
      ensures !poisoned && jobId in old(activeJobs) ==> activeJobs == old(activeJobs)[jobId := true]
      ensures jobId !in old(activeJobs) ==> activeJobs == old(activeJobs)
    {
      if poisoned {
        return Err(POISONED);
      }
      if jobId in activeJobs {
        activeJobs := activeJobs[jobId := true];
        return Ok(true);
      }
      return Ok(false);
    }

    /** The first half of `run_melt_render`, up to starting melt: the
        preparation steps, then the job registered as not cancelled, then
        the command built. */
    method StartRender(jobId: string, outputPath: string, options: RenderOptions, run: Runner,
                       tempDir: Result<string, string>, writeError: Option<string>, poisoned: bool)
      returns (r: Result<Launch, string>)
      modifies this
      ensures var plan := PlanRender(jobId, outputPath, options, run, tempDir, writeError);
        && (plan.Err? ==> r == plan && activeJobs == old(activeJobs))
        && (plan.Ok? && poisoned ==> r == Err(POISONED) && activeJobs == old(activeJobs))
        && (plan.Ok? && !poisoned ==> r == plan && activeJobs == old(activeJobs)[jobId := false])
    {
      var melt := FindMelt(run);
      if melt.None? {
        return Err(MELT_MISSING);
      }
      if tempDir.Err? {
        return Err(tempDir.error);
      }
      var xmlPath := XmlPath(tempDir.value, jobId);
      if writeError.Some? {
        return Err("Failed to write MLT XML: " + writeError.value);
      }
      if poisoned {
        return Err(POISONED);
      }
      activeJobs := activeJobs[jobId := false];
      var args := BuildRenderArgs(xmlPath, outputPath, options);
      r := Ok(Launch(melt.value, args));
    }

    /** The second half of `run_melt_render`, once melt has run or failed to
        start: the job is removed and the exit status reported. The job's
        cancellation flag is not consulted: a cancelled render reports like
        any other. */
    method FinishRender(jobId: string, outputPath: string, output: Result<ProcessOutput, string>, poisoned: bool)
      returns (r: Result<RenderResult, string>)
      modifies this
      ensures output.Err? ==> r == Err("Failed to run melt: " + output.error) && activeJobs == old(activeJobs)
      ensures output.Ok? && poisoned ==> r == Err(POISONED) && activeJobs == old(activeJobs)
      ensures output.Ok? && !poisoned ==>
        r == Ok(RenderOutcome(outputPath, output.value)) && activeJobs == old(activeJobs) - {jobId}
    {
      if output.Err? {
        return Err("Failed to run melt: " + output.error);
      }
      if poisoned {
        return Err(POISONED);
      }
      activeJobs := activeJobs - {jobId};
      var out := output.value;
      if Succeeded(out) {
        r := Ok(RenderResult(true, None, Some(outputPath)));
      } else {
        r := Ok(RenderResult(false, Some("melt exited with error: " + out.stderr), None));
      }
    }

    /** `run_melt_render` as a whole, with no other command in between: melt
        runs with the planned arguments; after a finished run the job is gone
        and every other job is as it was; a run that could not start, or a
        poisoned lock after it, leaves the job registered. */
    method RunRender(jobId: string, outputPath: string, options: RenderOptions, run: Runner,
                     tempDir: Result<string, string>, writeError: Option<string>,
                     poisonedBefore: bool, poisonedAfter: bool)
      returns (r: Result<RenderResult, string>)
      modifies this
      ensures var plan := PlanRender(jobId, outputPath, options, run, tempDir, writeError);
        && (plan.Err? ==> r == Err(plan.error) && activeJobs == old(activeJobs))
        && (plan.Ok? && poisonedBefore ==> r == Err(POISONED) && activeJobs == old(activeJobs))
        && (plan.Ok? && !poisonedBefore ==>
              match run(plan.value.meltPath, plan.value.args)
              case Err(e) => r == Err("Failed to run melt: " + e) && activeJobs == old(activeJobs)[jobId := false]
              case Ok(out) =>
                if poisonedAfter then r == Err(POISONED) && activeJobs == old(activeJobs)[jobId := false]
                else r == Ok(RenderOutcome(outputPath, out)) && activeJobs == old(activeJobs) - {jobId})
    {
      var launch := StartRender(jobId, outputPath, options, run, tempDir, writeError, poisonedBefore);
      if launch.Err? {
        return Err(launch.error);
      }
      var output := run(launch.value.meltPath, launch.value.args);
      r := FinishRender(jobId, outputPath, output, poisonedAfter);
    }

    /** A render during which the job is cancelled: the cancel finds the job
        and marks it, and the render still reports what melt's exit status
        says and removes the job. */
    method RenderCancelledMidway(jobId: string, outputPath: string, options: RenderOptions, run: Runner,
                                 dir: string)
      returns (cancelled: Result<bool, string>, r: Result<RenderResult, string>)
      modifies this
      requires LocateMelt(run).Some?
      ensures cancelled == Ok(true)
      ensures var out := run(LocateMelt(run).value, RenderArgs(XmlPath(dir, jobId), outputPath, options));
        match out
        case Err(e) => r == Err("Failed to run melt: " + e) && activeJobs == old(activeJobs)[jobId := true]
        case Ok(o) => r == Ok(RenderOutcome(outputPath, o)) && activeJobs == old(activeJobs) - {jobId}
    {
      ghost var before := activeJobs;
      var launch := StartRender(jobId, outputPath, options, run, Ok(dir), None, false);
      assert launch.Ok? && activeJobs == before[jobId := false];
      cancelled := Cancel(jobId, false);
      UpdateTwice(before, jobId, false, true);
      var output := run(launch.value.meltPath, launch.value.args);
      r := FinishRender(jobId, outputPath, output, false);
      RemoveAfterUpdate(before, jobId, true);
    }
  }
}
