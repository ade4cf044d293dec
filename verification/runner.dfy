/** The base workflow runner's utilities (watflow/runner.py): running one tool as a
    subprocess, the workflow's display name and the legacy environment check.

    Launching a process is not modelled: what the launch produced (a completed
    process, an expired timeout, or an exception while launching) is the input. */
module Runner {
  import opened Wrappers
  import opened Json
  import Dict
  import Env

  /** What `subprocess.run([python, tool], capture_output=True, timeout=...)` ended with. */
  datatype ProcessResult =
    | Completed(returnCode: int, stdout: string, stderr: string)
    | TimedOut
    | LaunchFailed(message: string)

  /** `(success, stdout, stderr, returncode)`. */
  datatype ToolOutcome = ToolOutcome(success: bool, stdout: string, stderr: string, returnCode: int)

  /** The return code reported for a timeout or a launch exception. */
  const FailureCode: int := -1

  /** `run_tool_subprocess(tool_path, timeout)`: never raises.  A completed process
      passes its output and return code through and succeeds iff the code is 0; a
      timeout or launch exception fails with code -1, empty stdout and a message in
      stderr. */
  function RunToolSubprocess(p: ProcessResult, timeout: Value): (o: ToolOutcome)
    ensures o.success <==> o.returnCode == 0
    ensures p.Completed? ==> o.stdout == p.stdout && o.stderr == p.stderr && o.returnCode == p.returnCode
    ensures !p.Completed? ==> !o.success && o.stdout == "" && o.returnCode == FailureCode
    ensures p.TimedOut? ==> o.stderr == "Timed out after " + PyStr(timeout) + "s"
    ensures p.LaunchFailed? ==> o.stderr == p.message
  {
    match p
    case Completed(code, out, err) => ToolOutcome(code == 0, out, err, code)
    case TimedOut => ToolOutcome(false, "", "Timed out after " + PyStr(timeout) + "s", FailureCode)
    case LaunchFailed(message) => ToolOutcome(false, "", message, FailureCode)
  }

  /** A timeout can be told apart from a process that exited with a non-negative
      non-zero code: the return codes differ.  (A process killed by signal 1 also
      reports -1, so only the stderr text tells those two apart.) */
  lemma TimeoutDistinguishable(code: int, out: string, err: string, timeout: Value)
    requires code > 0
    ensures RunToolSubprocess(TimedOut, timeout).returnCode != RunToolSubprocess(Completed(code, out, err), timeout).returnCode
    ensures !RunToolSubprocess(TimedOut, timeout).success && !RunToolSubprocess(Completed(code, out, err), timeout).success
  {
  }

  /** `get_workflow_name()`: the workflow section's `name`, or "Unnamed Workflow". */
  function GetWorkflowName(workflow: Fields): (name: Value)
    ensures "name" !in Dict.Keys(workflow) ==> name == Str("Unnamed Workflow")
    ensures "name" in Dict.Keys(workflow) ==> Dict.Get(workflow, "name") == Some(name)
  {
    GetOr(workflow, "name", Str("Unnamed Workflow"))
  }

  /** `validate_environment()`: with no required variables nothing is checked;
      otherwise `check_env(required, optional)` raises iff a required variable is
      unset or empty.  Returns true when it does not raise. */
  function ValidateEnvironment(required: seq<string>, optional: seq<string>, env: Env.Environ): (r: Result<bool, string>)
    ensures required == [] ==> r == Ok(true)
    ensures r.Err? <==> exists v :: v in required && !Env.IsSet(env, v)
    ensures r.Ok? ==> r.value
  {
    if required != [] then
      var checked := Env.CheckEnv(env, required, optional, true);
      if checked.Err? then Err(checked.error) else Ok(true)
    else Ok(true)
  }
}
