/** Finding the `melt` executable (`find_melt`): the fixed candidate paths in
    order, each tried with `--version`, then what `which melt` prints. Child
    processes are not modelled: a runner function answers for them. */
module MeltLocate {
  import opened Wrappers
  import opened Text

  /** What a finished child process reports, its output already decoded to
      text (lossily, as `String::from_utf8_lossy` does): the exit code (none
      when a signal ended it), standard output and standard error. */
  datatype ProcessOutput = ProcessOutput(code: Option<int>, stdout: string, stderr: string)

  /** `ExitStatus::success`: the process exited with code 0. */
  predicate Succeeded(out: ProcessOutput) {
    out.code == Some(0)
  }

  /** `Command::new(program).args(args).output()`: the output of the process,
      or the reason it could not be started. */
  type Runner = (string, seq<string>) -> Result<ProcessOutput, string>

  /** The places tried, in order: the search path, then three install
      locations. */
  const CANDIDATES: seq<string> := ["melt", "/usr/bin/melt", "/usr/local/bin/melt", "/opt/homebrew/bin/melt"]

  /** Whether `path --version` starts and exits successfully. */
  predicate Works(run: Runner, path: string) {
    run(path, ["--version"]).Ok? && Succeeded(run(path, ["--version"]).value)
  }

  /** The first candidate from `from` on that works. */
  function FirstWorking(run: Runner, from: nat): (r: Option<nat>)
    requires from <= |CANDIDATES|
    ensures r.Some? ==> from <= r.value < |CANDIDATES| && Works(run, CANDIDATES[r.value])
    ensures r.Some? ==> forall j :: from <= j < r.value ==> !Works(run, CANDIDATES[j])
    ensures r.None? ==> forall j :: from <= j < |CANDIDATES| ==> !Works(run, CANDIDATES[j])
    decreases |CANDIDATES| - from
  {
    if from == |CANDIDATES| then None
    else if Works(run, CANDIDATES[from]) then Some(from)
    else FirstWorking(run, from + 1)
  }

  /** The `which melt` lookup of the last resort. */
  const WHICH: string := "which"
  const WHICH_ARGS: seq<string> := ["melt"]

  /** The trimmed output of a successful `which melt`, if it is not blank. */
  function WhichPath(run: Runner): (p: Option<string>)
    ensures var w := run(WHICH, WHICH_ARGS);
      && (p.Some? <==> w.Ok? && Succeeded(w.value) && Trim(w.value.stdout) != [])
      && (p.Some? ==> p.value == Trim(w.value.stdout))
      && (p.Some? ==> !IsWhitespace(p.value[0]) && !IsWhitespace(p.value[|p.value| - 1]))
  {
    match run(WHICH, WHICH_ARGS)
    case Err(_) => None
    case Ok(out) =>
      var path := Trim(out.stdout);
      if Succeeded(out) && path != [] then Some(path) else None
  }

  /** Where `find_melt` finds melt: the first working candidate; failing
      that, the `which` answer; nothing when both fail. */
  function LocateMelt(run: Runner): (p: Option<string>)
    ensures (exists i :: 0 <= i < |CANDIDATES| && Works(run, CANDIDATES[i])) ==>
      exists i :: 0 <= i < |CANDIDATES| && p == Some(CANDIDATES[i]) && Works(run, CANDIDATES[i])
        && forall j :: 0 <= j < i ==> !Works(run, CANDIDATES[j])
    ensures (forall i :: 0 <= i < |CANDIDATES| ==> !Works(run, CANDIDATES[i])) ==> p == WhichPath(run)
    ensures p.None? <==>
      (forall i :: 0 <= i < |CANDIDATES| ==> !Works(run, CANDIDATES[i])) && WhichPath(run).None?
  {
    match FirstWorking(run, 0)
    case Some(i) => Some(CANDIDATES[i])
    case None => WhichPath(run)
  }

  /** `find_melt`, with its loop and early return. */
  method FindMelt(run: Runner) returns (path: Option<string>)
    ensures path == LocateMelt(run)
  {
    for i := 0 to |CANDIDATES|
      invariant forall j :: 0 <= j < i ==> !Works(run, CANDIDATES[j])
    {
      var output := run(CANDIDATES[i], ["--version"]);
      if output.Ok? && Succeeded(output.value) {
        assert Works(run, CANDIDATES[i]);
        return Some(CANDIDATES[i]);
      }
    }
    var output := run(WHICH, WHICH_ARGS);
    if output.Ok? && Succeeded(output.value) {
      var found := Trim(output.value.stdout);
      if found != [] {
        return Some(found);
      }
    }
    return None;
  }

  /** The search path wins whenever `melt --version` works there, whatever the
      other candidates and `which` answer. */
  lemma SearchPathFirst(run: Runner)
    requires Works(run, "melt")
    ensures LocateMelt(run) == Some("melt")
  {
    assert CANDIDATES[0] == "melt";
  }
}
