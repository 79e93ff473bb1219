/** The melt commands other than rendering: the availability check
    (`check_melt`), validation of a project (`validate_mlt_xml`) and a raw
    run (`run_melt_raw`). */
module MeltResults {
  import opened Wrappers
  import opened Text
  import opened MeltLocate
  import opened MeltCommand

  const INSTALL_HINT: string := "melt not found. Install with: sudo apt install melt"

  /** `MeltCheckResult`. */
  datatype MeltCheckResult = MeltCheckResult(
    available: bool, version: Option<string>, path: Option<string>, error: Option<string>)

  /** `check_melt`: the located path and, if `--version` on it starts, its
      trimmed output; otherwise the install hint. */
  function CheckMelt(run: Runner): (r: MeltCheckResult)
    ensures r.available <==> LocateMelt(run).Some?
    ensures r.available ==> r.path == LocateMelt(run) && r.error.None?
    ensures r.available ==> (r.version.Some? <==> run(r.path.value, ["--version"]).Ok?)
    ensures r.version.Some? ==>
      r.available && run(r.path.value, ["--version"]).Ok?
      && r.version.value == Trim(run(r.path.value, ["--version"]).value.stdout)
    ensures !r.available ==> r.error == Some(INSTALL_HINT) && r.version.None? && r.path.None?
  {
    match LocateMelt(run)
    case Some(path) =>
      var v := run(path, ["--version"]);
      MeltCheckResult(true, if v.Ok? then Some(Trim(v.value.stdout)) else None, Some(path), None)
    case None => MeltCheckResult(false, None, None, Some(INSTALL_HINT))
  }

  /** When a candidate path works, the check also reports a version: the
      `--version` run that found melt is asked again. */
  lemma CandidateReportsVersion(run: Runner, i: nat)
    requires i < |CANDIDATES| && Works(run, CANDIDATES[i])
    ensures CheckMelt(run).available && CheckMelt(run).version.Some?
  {
    var k :| 0 <= k < |CANDIDATES| && LocateMelt(run) == Some(CANDIDATES[k]) && Works(run, CANDIDATES[k]);
  }

  /** `ValidateResult`. */
  datatype ValidateResult = ValidateResult(valid: bool, error: Option<string>)

  const VALIDATE_FILE: string := "validate_temp.mlt"

  /** melt rendering the project to its XML consumer, which parses it. */
  function ValidateArgs(xmlPath: string): seq<string> {
    [xmlPath, "-consumer", "xml"]
  }

  /** `validate_mlt_xml`: a missing melt is an invalid result, not an error;
      the temp directory and the write of the project can fail the call; a
      run that cannot start, or exits unsuccessfully, is invalid with its
      reason. */
  function ValidateXml(run: Runner, tempDir: Result<string, string>, writeError: Option<string>)
    : (r: Result<ValidateResult, string>)
    ensures LocateMelt(run).None? ==> r == Ok(ValidateResult(false, Some("melt not found")))
    ensures r.Err? <==> LocateMelt(run).Some? && (tempDir.Err? || writeError.Some?)
    ensures LocateMelt(run).Some? && tempDir.Err? ==> r == Err(tempDir.error)
    ensures LocateMelt(run).Some? && tempDir.Ok? && writeError.Some? ==>
      r == Err("Failed to write temp XML: " + writeError.value)
    ensures r.Ok? ==> (r.value.valid <==> r.value.error.None?)
    ensures (r.Ok? && r.value.valid) <==>
      && LocateMelt(run).Some? && tempDir.Ok? && writeError.None?
      && var out := run(LocateMelt(run).value, ValidateArgs(Join(tempDir.value, VALIDATE_FILE)));
         out.Ok? && Succeeded(out.value)
  {
    match LocateMelt(run)
    case None => Ok(ValidateResult(false, Some("melt not found")))
    case Some(melt) =>
      match tempDir
      case Err(e) => Err(e)
      case Ok(dir) =>
        if writeError.Some? then Err("Failed to write temp XML: " + writeError.value)
        else
          match run(melt, ValidateArgs(Join(dir, VALIDATE_FILE)))
          case Err(e) => Ok(ValidateResult(false, Some("Failed to validate: " + e)))
          case Ok(out) =>
            if Succeeded(out) then Ok(ValidateResult(true, None))
            else Ok(ValidateResult(false, Some(out.stderr)))
  }

  /** The reason an invalid project reports: melt's error output when it ran,
      the start failure otherwise. */
  lemma ValidateReasons(run: Runner, dir: string)
    requires LocateMelt(run).Some?
    ensures var out := run(LocateMelt(run).value, ValidateArgs(Join(dir, VALIDATE_FILE)));
      var r := ValidateXml(run, Ok(dir), None);
      && (out.Err? ==> r == Ok(ValidateResult(false, Some("Failed to validate: " + out.error))))
      && (out.Ok? && !Succeeded(out.value) ==> r == Ok(ValidateResult(false, Some(out.value.stderr))))
  {
  }

  /** `MeltRawResult`. */
  datatype MeltRawResult = MeltRawResult(stdout: string, stderr: string, exitCode: int)

  /** `run_melt_raw`: melt run with the caller's arguments unchanged; the exit
      code is -1 when the process has none (it was ended by a signal). */
  function RunMeltRaw(args: seq<string>, run: Runner): (r: Result<MeltRawResult, string>)
    ensures LocateMelt(run).None? ==> r == Err("melt not found on system")
    ensures LocateMelt(run).Some? && run(LocateMelt(run).value, args).Err? ==>
      r == Err("Failed to run melt: " + run(LocateMelt(run).value, args).error)
    ensures r.Ok? ==>
      var out := run(LocateMelt(run).value, args).value;
      && r.value.stdout == out.stdout && r.value.stderr == out.stderr
      && (out.code.Some? ==> r.value.exitCode == out.code.value)
      && (out.code.None? ==> r.value.exitCode == -1)
  {
    match LocateMelt(run)
    case None => Err("melt not found on system")
    case Some(melt) =>
      match run(melt, args)
      case Err(e) => Err("Failed to run melt: " + e)
      case Ok(out) =>
        Ok(MeltRawResult(out.stdout, out.stderr, if out.code.Some? then out.code.value else -1))
  }
}
