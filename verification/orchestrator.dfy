/** The workflow runner of the project template (template/main.py): requirement
    checks, then the phases in config order, each running its tools sequentially or
    in parallel and checking a success threshold.

    Nothing is executed.  What a tool's subprocess ends with, whether a parallel
    future raised, and the order in which parallel futures complete are the
    `World`; console output, timestamps and durations are not modelled. */
module Orchestrator {
  import opened Wrappers
  import opened Text
  import opened Json
  import Dict
  import Env
  import Runner
  import Validation
  import Config

  /** `{"tool": tool, "success": success}`. */
  datatype ToolResult = ToolResult(tool: string, success: bool)

  /** Everything outside the program.  Tools are identified by phase index and tool
      index (a tool named twice is run twice and may end differently each time).
      `picks(p)` drives the completion order of phase `p`'s parallel futures (see
      `CompletionOrder`); `futureError(p, t)` is the exception `future.result()`
      raises for that tool, if any. */
  datatype World = World(
    exec: (nat, nat) -> Runner.ProcessResult,
    futureError: (nat, nat) -> Option<string>,
    picks: nat -> seq<nat>)

  /** The indices `lo, lo + 1, ..., hi - 1`. */
  function Range(lo: nat, hi: nat): (r: seq<nat>)
    requires lo <= hi
    ensures |r| == hi - lo
    ensures forall k :: 0 <= k < |r| ==> r[k] == lo + k
  {
    seq(hi - lo, k requires 0 <= k < hi - lo => lo + k)
  }

  lemma RangeCons(lo: nat, hi: nat)
    requires lo < hi
    ensures [lo] + Range(lo + 1, hi) == Range(lo, hi)
  {
  }

  /** The integer a value stands for in an integer comparison (`bool` is an `int`). */
  function IntLike(v: Value): Option<int> {
    match v
    case Int(i) => Some(i)
    case Bool(b) => Some(if b then 1 else 0)
    case _ => None
  }

  // ---------------------------------------------------------------------------
  // Reading a phase
  // ---------------------------------------------------------------------------

  /** The settings `run_phase` reads from its phase dict. */
  datatype PhaseSettings = PhaseSettings(
    name: Value, tools: Value, parallel: bool, maxWorkers: Value, timeout: Value, critical: bool, minSuccess: Value)

  /** `run_phase`'s reads: `phase_config["name"]` raises `KeyError` when absent; the
      other keys fall back to parallel False, max_workers 4, timeout 120, critical
      True and min_success 0; `parallel` and `critical` are used for their truth value. */
  function ReadPhase(phase: Fields): (r: Result<PhaseSettings, string>)
    ensures r.Err? <==> "name" !in Dict.Keys(phase)
    ensures r.Ok? ==> Dict.Get(phase, "name") == Some(r.value.name)
    ensures r.Ok? ==> ("tools" !in Dict.Keys(phase) ==> r.value.tools == List([]))
    ensures r.Ok? ==> ("parallel" !in Dict.Keys(phase) ==> !r.value.parallel)
    ensures r.Ok? ==> ("max_workers" !in Dict.Keys(phase) ==> r.value.maxWorkers == Int(4))
    ensures r.Ok? ==> ("timeout" !in Dict.Keys(phase) ==> r.value.timeout == Int(120))
    ensures r.Ok? ==> ("critical" !in Dict.Keys(phase) ==> r.value.critical)
    ensures r.Ok? ==> ("min_success" !in Dict.Keys(phase) ==> r.value.minSuccess == Int(0))
    ensures r.Ok? ==> ("tools" in Dict.Keys(phase) ==> Dict.Get(phase, "tools") == Some(r.value.tools))
    ensures r.Ok? ==> ("parallel" in Dict.Keys(phase) ==> r.value.parallel == Truthy(Dict.Get(phase, "parallel").value))
    ensures r.Ok? ==> ("max_workers" in Dict.Keys(phase) ==> Dict.Get(phase, "max_workers") == Some(r.value.maxWorkers))
    ensures r.Ok? ==> ("timeout" in Dict.Keys(phase) ==> Dict.Get(phase, "timeout") == Some(r.value.timeout))
    ensures r.Ok? ==> ("critical" in Dict.Keys(phase) ==> r.value.critical == Truthy(Dict.Get(phase, "critical").value))
    ensures r.Ok? ==> ("min_success" in Dict.Keys(phase) ==> Dict.Get(phase, "min_success") == Some(r.value.minSuccess))
  {
    match Dict.Get(phase, "name")
    case None => Err("'name'")
    case Some(name) =>
      Ok(PhaseSettings(
        name,
        GetOr(phase, "tools", List([])),
        Truthy(GetOr(phase, "parallel", Bool(false))),
        GetOr(phase, "max_workers", Int(4)),
        GetOr(phase, "timeout", Int(120)),
        Truthy(GetOr(phase, "critical", Bool(true))),
        GetOr(phase, "min_success", Int(0))))
  }

  /** The fallbacks `run_phase` uses agree with `DEFAULT_PHASE_SETTINGS`: a resolved
      phase carries all of them, and a bare phase reads the same values. */
  lemma ReadPhaseDefaultsAgree(name: Value)
    ensures var s := ReadPhase([("name", name)]).value;
      && Dict.Get(Config.DefaultPhaseSettings, "parallel") == Some(Bool(s.parallel))
      && Dict.Get(Config.DefaultPhaseSettings, "max_workers") == Some(s.maxWorkers)
      && Dict.Get(Config.DefaultPhaseSettings, "timeout") == Some(s.timeout)
      && Dict.Get(Config.DefaultPhaseSettings, "critical") == Some(Bool(s.critical))
      && Dict.Get(Config.DefaultPhaseSettings, "min_success") == Some(s.minSuccess)
  {
    var s := ReadPhase([("name", name)]).value;
    assert !s.parallel && s.maxWorkers == Int(4) && s.timeout == Int(120) && s.critical && s.minSuccess == Int(0);
    Config.DefaultPhaseSettingsValues();
  }

  // ---------------------------------------------------------------------------
  // Running tools
  // ---------------------------------------------------------------------------

  /** The error recorded for a tool that failed: the tool and its return code, then
      ": " and the stripped stderr when stderr is not blank. */
  function FailureMessage(tool: string, o: Runner.ToolOutcome): (r: string)
    ensures var head := tool + " failed (code " + IntToString(o.returnCode) + ")";
      && |head| <= |r| && r[..|head|] == head
      && (r == head <==> IsBlank(o.stderr))
      && (!IsBlank(o.stderr) ==> r[|head|..] == ": " + Strip(o.stderr) && Strip(o.stderr) != "")
  {
    tool + " failed (code " + IntToString(o.returnCode) + ")" + (if IsBlank(o.stderr) then "" else ": " + Strip(o.stderr))
  }

  /** `self.tools_dir / tool` for a tool that is not a string. */
  function NotAPath(tool: Value): string {
    "unsupported operand type(s) for /: 'PosixPath' and '" + TypeName(tool) + "'"
  }

  /** What running one phase's tools produced: the results list, the errors appended
      to `self.errors`, the exception raised (if any) and the tool indices whose
      subprocess was launched, in launch order. */
  datatype StrategyRun = StrategyRun(results: seq<ToolResult>, errors: seq<string>, raised: Option<string>, invoked: seq<nat>)

  /** Sequential mode stops at a tool that is not a path, and at a failing tool when
      the phase is critical. */
  predicate Stops(tool: Value, critical: bool, o: Runner.ToolOutcome) {
    !tool.Str? || (critical && !o.success)
  }

  /** The first tool from `i` on at which sequential mode stops, or `|tools|`. */
  function FirstStop(tools: seq<Value>, i: nat, critical: bool, outcome: nat -> Runner.ToolOutcome): (s: nat)
    requires i <= |tools|
    ensures i <= s <= |tools|
    ensures forall j :: i <= j < s ==> !Stops(tools[j], critical, outcome(j))
    ensures s < |tools| ==> Stops(tools[s], critical, outcome(s))
    decreases |tools| - i
  {
    if i == |tools| || Stops(tools[i], critical, outcome(i)) then i
    else FirstStop(tools, i + 1, critical, outcome)
  }

  /** The errors of the tools `lo .. hi - 1`: one failure message per failing tool, in order. */
  function FailureLog(tools: seq<Value>, lo: nat, hi: nat, outcome: nat -> Runner.ToolOutcome): seq<string>
    requires lo <= hi <= |tools|
    decreases hi - lo
  {
    if lo == hi then []
    else
      (if tools[lo].Str? && !outcome(lo).success then [FailureMessage(tools[lo].s, outcome(lo))] else [])
      + FailureLog(tools, lo + 1, hi, outcome)
  }

  /** `_run_sequential(tools, timeout, critical)` from the `i`-th tool on; `outcome(j)`
      is what `run_tool_subprocess` returned for tool `j`. */
  function Sequential(tools: seq<Value>, i: nat, critical: bool, outcome: nat -> Runner.ToolOutcome): (r: StrategyRun)
    requires i <= |tools|
    ensures |r.results| <= |r.invoked| <= |tools| - i
    ensures |r.errors| <= |r.invoked|
    ensures r.raised.None? <==> |r.results| == |tools| - i
    ensures r.raised.None? ==> |r.invoked| == |tools| - i
    decreases |tools| - i
  {
    if i == |tools| then StrategyRun([], [], None, [])
    else if !tools[i].Str? then StrategyRun([], [], Some(NotAPath(tools[i])), [])
    else
      var name := tools[i].s;
      var o := outcome(i);
      if !o.success && critical then
        StrategyRun([], [FailureMessage(name, o)], Some(FailureMessage(name, o)), [i])
      else
        var rest := Sequential(tools, i + 1, critical, outcome);
        StrategyRun(
          [ToolResult(name, o.success)] + rest.results,
          (if o.success then [] else [FailureMessage(name, o)]) + rest.errors,
          rest.raised,
          [i] + rest.invoked)
  }

  /** One step of sequential mode: a string tool that does not stop the phase yields
      its result and error and the rest continues from the next tool. */
  lemma SequentialStep(tools: seq<Value>, i: nat, critical: bool, outcome: nat -> Runner.ToolOutcome)
    requires i < |tools| && !Stops(tools[i], critical, outcome(i))
    ensures var r := Sequential(tools, i, critical, outcome);
      var rest := Sequential(tools, i + 1, critical, outcome);
      && tools[i].Str?
      && r.results == [ToolResult(tools[i].s, outcome(i).success)] + rest.results
      && r.errors == (if outcome(i).success then [] else [FailureMessage(tools[i].s, outcome(i))]) + rest.errors
      && r.raised == rest.raised
      && r.invoked == [i] + rest.invoked
      && FirstStop(tools, i, critical, outcome) == FirstStop(tools, i + 1, critical, outcome)
  {
  }

  /** The tools before the stopping point run in order, each yielding one result. */
  lemma {:induction false} SequentialResults(tools: seq<Value>, i: nat, critical: bool, outcome: nat -> Runner.ToolOutcome)
    requires i <= |tools|
    ensures var r := Sequential(tools, i, critical, outcome);
      var s := FirstStop(tools, i, critical, outcome);
      && |r.results| == s - i
      && (forall j :: i <= j < s ==> tools[j].Str? && r.results[j - i] == ToolResult(tools[j].s, outcome(j).success))
    decreases |tools| - i
  {
    if i < |tools| && !Stops(tools[i], critical, outcome(i)) {
      SequentialStep(tools, i, critical, outcome);
      SequentialResults(tools, i + 1, critical, outcome);
      var r := Sequential(tools, i, critical, outcome);
      var rest := Sequential(tools, i + 1, critical, outcome);
      ResultsShift(tools, i, outcome, r.results, rest.results, FirstStop(tools, i, critical, outcome));
    }
  }

  /** The results of the tools from `i` to `s` are the result of tool `i` followed by
      those from `i + 1` on. */
  lemma ResultsShift(tools: seq<Value>, i: nat, outcome: nat -> Runner.ToolOutcome, rs: seq<ToolResult>, rest: seq<ToolResult>, s: nat)
    requires i < s <= |tools|
    requires forall j :: i <= j < s ==> tools[j].Str?
    requires rs == [ToolResult(tools[i].s, outcome(i).success)] + rest
    requires |rest| == s - (i + 1)
    requires forall j :: i + 1 <= j < s ==> rest[j - (i + 1)] == ToolResult(tools[j].s, outcome(j).success)
    ensures |rs| == s - i
    ensures forall j :: i <= j < s ==> rs[j - i] == ToolResult(tools[j].s, outcome(j).success)
  {
    forall j | i < j < s
      ensures rs[j - i] == ToolResult(tools[j].s, outcome(j).success)
    {
      assert rs[j - i] == rest[j - (i + 1)];
    }
  }

  /** Sequential mode raises iff it stops before the end: at a tool that is not a path
      (which is not launched) or at the failing tool of a critical phase (which is). */
  lemma {:induction false} SequentialRaises(tools: seq<Value>, i: nat, critical: bool, outcome: nat -> Runner.ToolOutcome)
    requires i <= |tools|
    ensures var r := Sequential(tools, i, critical, outcome);
      var s := FirstStop(tools, i, critical, outcome);
      && (r.raised.None? <==> s == |tools|)
      && (s == |tools| ==> r.invoked == Range(i, s))
      && (s < |tools| && !tools[s].Str? ==> r.raised == Some(NotAPath(tools[s])) && r.invoked == Range(i, s))
      && (s < |tools| && tools[s].Str? ==>
            critical && !outcome(s).success
            && r.raised == Some(FailureMessage(tools[s].s, outcome(s))) && r.invoked == Range(i, s + 1))
    decreases |tools| - i
  {
    if i == |tools| {
      assert Range(i, i) == [];
    } else if Stops(tools[i], critical, outcome(i)) {
      assert Range(i, i) == [] && Range(i, i + 1) == [i];
    } else {
      SequentialStep(tools, i, critical, outcome);
      SequentialRaises(tools, i + 1, critical, outcome);
      var s := FirstStop(tools, i, critical, outcome);
      RangeCons(i, s);
      RangeCons(i, s + 1);
    }
  }

  /** Sequential mode launches a contiguous run of tools and records one error per
      failed launched tool, in order. */
  lemma {:induction false} SequentialErrors(tools: seq<Value>, i: nat, critical: bool, outcome: nat -> Runner.ToolOutcome)
    requires i <= |tools|
    ensures var r := Sequential(tools, i, critical, outcome);
      && i + |r.invoked| <= |tools|
      && r.errors == FailureLog(tools, i, i + |r.invoked|, outcome)
    decreases |tools| - i
  {
    if i < |tools| && !Stops(tools[i], critical, outcome(i)) {
      SequentialStep(tools, i, critical, outcome);
      SequentialErrors(tools, i + 1, critical, outcome);
    }
  }

  /** Without `critical`, every tool runs once, in declaration order, and yields one
      result in that order. */
  lemma SequentialNonCriticalRunsAll(tools: seq<Value>, outcome: nat -> Runner.ToolOutcome)
    requires AllStr(tools)
    ensures var r := Sequential(tools, 0, false, outcome);
      && r.raised.None?
      && r.invoked == Range(0, |tools|)
      && |r.results| == |tools|
      && (forall k :: 0 <= k < |tools| ==> r.results[k] == ToolResult(tools[k].s, outcome(k).success))
      && r.errors == FailureLog(tools, 0, |tools|, outcome)
  {
    SequentialResults(tools, 0, false, outcome);
    SequentialRaises(tools, 0, false, outcome);
    SequentialErrors(tools, 0, false, outcome);
  }

  lemma {:induction false} FailureLogLast(tools: seq<Value>, lo: nat, f: nat, outcome: nat -> Runner.ToolOutcome)
    requires lo <= f < |tools|
    requires forall j :: lo <= j < f ==> outcome(j).success
    ensures FailureLog(tools, lo, f + 1, outcome) == FailureLog(tools, f, f + 1, outcome)
    decreases f - lo
  {
    if lo < f {
      FailureLogLast(tools, lo + 1, f, outcome);
    }
  }

  /** With `critical`, the first failing tool `f` stops the phase: tools after it never
      run, it contributes its error but no result, and the phase raises that error. */
  lemma SequentialCriticalFailFast(tools: seq<Value>, outcome: nat -> Runner.ToolOutcome, f: nat)
    requires AllStr(tools) && f < |tools|
    requires !outcome(f).success && forall j :: 0 <= j < f ==> outcome(j).success
    ensures var r := Sequential(tools, 0, true, outcome);
      && r.invoked == Range(0, f + 1)
      && r.raised == Some(FailureMessage(tools[f].s, outcome(f)))
      && r.errors == [FailureMessage(tools[f].s, outcome(f))]
      && |r.results| == f
      && (forall k :: 0 <= k < f ==> r.results[k] == ToolResult(tools[k].s, true))
  {
    SequentialResults(tools, 0, true, outcome);
    SequentialRaises(tools, 0, true, outcome);
    SequentialErrors(tools, 0, true, outcome);
    var s := FirstStop(tools, 0, true, outcome);
    assert s <= f;
    assert s >= f ==> s == f;
    FailureLogLast(tools, 0, f, outcome);
  }

  /** The name a result of tool `j` carries. */
  function ToolName(tools: seq<Value>, j: nat): string {
    if j < |tools| then PyStr(tools[j]) else ""
  }

  /** The result of the parallel future of tool `j`: it failed when the future raised. */
  function ParallelResult(tools: seq<Value>, j: nat, outcome: nat -> Runner.ToolOutcome, futureError: nat -> Option<string>): ToolResult {
    ToolResult(ToolName(tools, j), futureError(j).None? && outcome(j).success)
  }

  /** The errors the parallel future of tool `j` appends. */
  function ParallelErrors(tools: seq<Value>, j: nat, outcome: nat -> Runner.ToolOutcome, futureError: nat -> Option<string>): seq<string> {
    match futureError(j)
    case Some(e) => [ToolName(tools, j) + " error: " + e]
    case None => if outcome(j).success then [] else [FailureMessage(ToolName(tools, j), outcome(j))]
  }

  /** The error a failed future leaves: "<tool> error: <e>" when `future.result()`
      raised `e`, the tool's failure message when the tool itself failed. */
  function FutureErrorText(tool: string, raised: Option<string>, o: Runner.ToolOutcome): string {
    match raised
    case Some(e) => tool + " error: " + e
    case None => FailureMessage(tool, o)
  }

  /** The futures of `order` whose result is a failure, in the same order. */
  function FailedFutures(tools: seq<Value>, order: seq<nat>, outcome: nat -> Runner.ToolOutcome, futureError: nat -> Option<string>)
    : (f: seq<nat>)
    ensures |f| <= |order|
    ensures forall j :: j in f <==> j in order && !ParallelResult(tools, j, outcome, futureError).success
  {
    if order == [] then []
    else
      (if ParallelResult(tools, order[0], outcome, futureError).success then [] else [order[0]])
      + FailedFutures(tools, order[1..], outcome, futureError)
  }

  /** The futures collected in `order`: one result per future, in completion order. */
  function Collect(tools: seq<Value>, order: seq<nat>, outcome: nat -> Runner.ToolOutcome, futureError: nat -> Option<string>)
    : (r: (seq<ToolResult>, seq<string>))
    ensures |r.0| == |order|
    ensures forall k :: 0 <= k < |order| ==> r.0[k] == ParallelResult(tools, order[k], outcome, futureError)
    ensures |r.1| + CountSuccess(r.0) == |order|
  {
    if order == [] then ([], [])
    else
      var rest := Collect(tools, order[1..], outcome, futureError);
      ([ParallelResult(tools, order[0], outcome, futureError)] + rest.0,
       ParallelErrors(tools, order[0], outcome, futureError) + rest.1)
  }
  /** One error per failed future, in completion order, each saying how that future
      failed; successful futures add none. */
  lemma {:induction false} CollectErrors(tools: seq<Value>, order: seq<nat>, outcome: nat -> Runner.ToolOutcome,
                                         futureError: nat -> Option<string>)
    ensures var errors := Collect(tools, order, outcome, futureError).1;
      var failed := FailedFutures(tools, order, outcome, futureError);
      && |errors| == |failed|
      && forall k :: 0 <= k < |failed| ==>
           errors[k] == FutureErrorText(ToolName(tools, failed[k]), futureError(failed[k]), outcome(failed[k]))
  {
    if order != [] {
      var j := order[0];
      CollectErrors(tools, order[1..], outcome, futureError);
      var errors := Collect(tools, order, outcome, futureError).1;
      var rest := Collect(tools, order[1..], outcome, futureError).1;
      var failed := FailedFutures(tools, order, outcome, futureError);
      var restFailed := FailedFutures(tools, order[1..], outcome, futureError);
      assert errors == ParallelErrors(tools, j, outcome, futureError) + rest;
      if ParallelResult(tools, j, outcome, futureError).success {
        assert errors == rest && failed == restFailed;
      } else {
        var text := (i: nat) => FutureErrorText(ToolName(tools, i), futureError(i), outcome(i));
        assert errors == [text(j)] + rest;
        assert failed == [j] + restFailed;
        TextsCons(errors, rest, failed, restFailed, j, text);
      }
    }
  }

  /** Prepending one failed future and its text keeps texts and futures in step. */
  lemma TextsCons(errors: seq<string>, rest: seq<string>, failed: seq<nat>, restFailed: seq<nat>, j: nat, text: nat -> string)
    requires |rest| == |restFailed| && forall k :: 0 <= k < |restFailed| ==> rest[k] == text(restFailed[k])
    requires errors == [text(j)] + rest && failed == [j] + restFailed
    ensures |errors| == |failed| && forall k :: 0 <= k < |failed| ==> errors[k] == text(failed[k])
  {
    assert forall k :: 1 <= k < |failed| ==> failed[k] == restFailed[k - 1] && errors[k] == rest[k - 1];
  }


  /** The order in which futures complete.  Each pick chooses among the futures still
      pending (`pick % |pending|`; missing picks choose the first).  Every sequence of
      picks is a possible run, and `CompletionOrderReachable` shows every order is. */
  function CompletionOrder(pending: seq<nat>, picks: seq<nat>): (order: seq<nat>)
    ensures |order| == |pending|
    ensures multiset(order) == multiset(pending)
    decreases |pending|
  {
    if pending == [] then []
    else
      var p := Pick(picks, |pending|);
      var rest := CompletionOrder(RemoveAt(pending, p), if picks == [] then [] else picks[1..]);
      RemovedFirst(pending, p, rest);
      [pending[p]] + rest
  }

  /** The pending future the next pick chooses. */
  function Pick(picks: seq<nat>, n: nat): (p: nat)
    requires n > 0
    ensures p < n
  {
    if picks == [] then 0 else picks[0] % n
  }

  /** The pending futures once the `p`-th has completed. */
  function RemoveAt(s: seq<nat>, p: nat): (r: seq<nat>)
    requires p < |s|
    ensures |r| == |s| - 1
    ensures multiset(r) == multiset(s) - multiset{s[p]}
  {
    assert s == s[..p] + [s[p]] + s[p + 1..];
    s[..p] + s[p + 1..]
  }

  /** The removed future followed by a reordering of the rest is a reordering of all. */
  lemma RemovedFirst(s: seq<nat>, p: nat, rest: seq<nat>)
    requires p < |s|
    requires multiset(rest) == multiset(RemoveAt(s, p))
    ensures multiset([s[p]] + rest) == multiset(s)
  {
    assert s[p] in multiset(s);
  }

  function IndexOf(s: seq<nat>, x: nat): (i: nat)
    requires x in s
    ensures i < |s| && s[i] == x
  {
    if s[0] == x then 0 else 1 + IndexOf(s[1..], x)
  }

  /** The picks that make the futures complete in the order `perm`. */
  function PicksFor(pending: seq<nat>, perm: seq<nat>): seq<nat>
    requires multiset(perm) == multiset(pending)
    decreases |pending|
  {
    if perm == [] then []
    else
      assert perm[0] in multiset(pending);
      var p := IndexOf(pending, perm[0]);
      assert perm == [perm[0]] + perm[1..];
      [p] + PicksFor(RemoveAt(pending, p), perm[1..])
  }

  lemma ModSmall(p: nat, n: nat)
    requires p < n
    ensures p % n == p
  {
  }

  /** Every permutation of the pending futures is a possible completion order. */
  lemma {:induction false} CompletionOrderReachable(pending: seq<nat>, perm: seq<nat>)
    requires multiset(perm) == multiset(pending)
    ensures CompletionOrder(pending, PicksFor(pending, perm)) == perm
    decreases |pending|
  {
    if perm == [] {
      assert |pending| == |multiset(pending)| == 0;
    } else {
      assert perm[0] in multiset(perm);
      assert perm[0] in multiset(pending);
      assert perm[0] in pending;
      var p := IndexOf(pending, perm[0]);
      var rest := RemoveAt(pending, p);
      assert multiset(perm[1..]) == multiset(rest) by {
        assert perm == [perm[0]] + perm[1..];
      }
      var picks := PicksFor(pending, perm);
      assert picks == [p] + PicksFor(rest, perm[1..]);
      assert picks[1..] == PicksFor(rest, perm[1..]);
      assert picks != [] && picks[0] == p;
      ModSmall(p, |pending|);
      assert CompletionOrder(pending, picks) == [pending[p]] + CompletionOrder(rest, picks[1..]);
      CompletionOrderReachable(rest, perm[1..]);
      assert perm == [perm[0]] + perm[1..];
    }
  }

  /** `_run_parallel(tools, max_workers, timeout)`: `min(len(tools), max_workers)` must
      be a positive integer; every tool is submitted before any result is read, so a
      tool that is not a path raises after the earlier ones were launched; otherwise
      every future is collected in completion order. */
  function Parallel(tools: seq<Value>, maxWorkers: Value, outcome: nat -> Runner.ToolOutcome,
                    futureError: nat -> Option<string>, picks: seq<nat>): (r: StrategyRun)
    ensures r.raised.None? ==> r.invoked == Range(0, |tools|) && |r.results| == |tools|
  {
    match IntLike(maxWorkers)
    case None => StrategyRun([], [], Some("'<' not supported between instances of '" + TypeName(maxWorkers) + "' and 'int'"), [])
    case Some(m) =>
      if (if |tools| <= m then |tools| else m) <= 0 then
        StrategyRun([], [], Some("max_workers must be greater than 0"), [])
      else
        var k := FirstNonStr(tools, 0);
        if k < |tools| then StrategyRun([], [], Some(NotAPath(tools[k])), Range(0, k))
        else
          var collected := Collect(tools, CompletionOrder(Range(0, |tools|), picks), outcome, futureError);
          StrategyRun(collected.0, collected.1, None, Range(0, |tools|))
  }

  /** The pool is `min(len(tools), max_workers)` processes: with at least one tool and
      a positive integer `max_workers` the phase never raises; every tool is launched
      and yields exactly one result, the results follow a permutation of the tools,
      a tool whose future raised counts as failed, and each failed tool appends
      exactly one error. */
  lemma ParallelSpec(tools: seq<Value>, m: int, outcome: nat -> Runner.ToolOutcome,
                     futureError: nat -> Option<string>, picks: seq<nat>)
    requires AllStr(tools) && tools != [] && m >= 1
    ensures var r := Parallel(tools, Int(m), outcome, futureError, picks);
      var order := CompletionOrder(Range(0, |tools|), picks);
      && r.raised.None?
      && r.invoked == Range(0, |tools|)
      && multiset(order) == multiset(Range(0, |tools|))
      && |r.results| == |tools|
      && |r.errors| + CountSuccess(r.results) == |tools|
      && (forall k :: 0 <= k < |tools| ==> order[k] < |tools|)
      && (forall k :: 0 <= k < |tools| ==>
            r.results[k] == ToolResult(tools[order[k]].s, futureError(order[k]).None? && outcome(order[k]).success))
  {
    var order := CompletionOrder(Range(0, |tools|), picks);
    CompletionOrderInRange(|tools|, picks);
    assert FirstNonStr(tools, 0) == |tools|;
    var collected := Collect(tools, order, outcome, futureError);
    assert Parallel(tools, Int(m), outcome, futureError, picks) == StrategyRun(collected.0, collected.1, None, Range(0, |tools|));
    forall k | 0 <= k < |tools|
      ensures collected.0[k] == ToolResult(tools[order[k]].s, futureError(order[k]).None? && outcome(order[k]).success)
    {
      var j := order[k];
      assert tools[j].Str?;
      assert ToolName(tools, j) == tools[j].s;
    }
  }

  /** On the parallel path each failed future appends one error, in completion
      order: "<tool> error: <e>" when `future.result()` raised `e`, the tool's
      failure message when the tool failed; a tool fails exactly when its future
      raised or its subprocess failed, and successes append nothing. */
  lemma ParallelErrorTexts(tools: seq<Value>, m: int, outcome: nat -> Runner.ToolOutcome,
                           futureError: nat -> Option<string>, picks: seq<nat>)
    requires AllStr(tools) && tools != [] && m >= 1
    ensures var r := Parallel(tools, Int(m), outcome, futureError, picks);
      var failed := FailedFutures(tools, CompletionOrder(Range(0, |tools|), picks), outcome, futureError);
      && |r.errors| == |failed|
      && (forall k :: 0 <= k < |failed| ==>
            failed[k] < |tools|
            && r.errors[k] == FutureErrorText(tools[failed[k]].s, futureError(failed[k]), outcome(failed[k])))
      && (forall j :: 0 <= j < |tools| ==> (j in failed <==> futureError(j).Some? || !outcome(j).success))
  {
    var order := CompletionOrder(Range(0, |tools|), picks);
    ParallelCollects(tools, m, outcome, futureError, picks);
    CollectErrors(tools, order, outcome, futureError);
    CompletionOrderInRange(|tools|, picks);
    FailedFuturesNamed(tools, order, outcome, futureError);
    CompletionOrderCovers(|tools|, picks);
  }

  /** With string tools and a usable pool, the parallel path collects every future. */
  lemma ParallelCollects(tools: seq<Value>, m: int, outcome: nat -> Runner.ToolOutcome,
                         futureError: nat -> Option<string>, picks: seq<nat>)
    requires AllStr(tools) && tools != [] && m >= 1
    ensures var c := Collect(tools, CompletionOrder(Range(0, |tools|), picks), outcome, futureError);
      Parallel(tools, Int(m), outcome, futureError, picks) == StrategyRun(c.0, c.1, None, Range(0, |tools|))
  {
    assert FirstNonStr(tools, 0) == |tools|;
  }

  lemma FailedFuturesNamed(tools: seq<Value>, order: seq<nat>, outcome: nat -> Runner.ToolOutcome, futureError: nat -> Option<string>)
    requires AllStr(tools) && forall k :: 0 <= k < |order| ==> order[k] < |tools|
    ensures var failed := FailedFutures(tools, order, outcome, futureError);
      forall k :: 0 <= k < |failed| ==> failed[k] < |tools| && ToolName(tools, failed[k]) == tools[failed[k]].s
  {
    var failed := FailedFutures(tools, order, outcome, futureError);
    forall k | 0 <= k < |failed|
      ensures failed[k] < |tools|
    {
      assert failed[k] in failed;
      var i :| 0 <= i < |order| && order[i] == failed[k];
    }
  }

  /** Every tool index appears in a completion order of the tool indices. */
  lemma CompletionOrderCovers(n: nat, picks: seq<nat>)
    ensures forall j :: 0 <= j < n ==> j in CompletionOrder(Range(0, n), picks)
  {
    var order := CompletionOrder(Range(0, n), picks);
    forall j | 0 <= j < n
      ensures j in order
    {
      assert Range(0, n)[j] == j;
      assert j in multiset(Range(0, n));
      assert j in multiset(order);
    }
  }

  /** A completion order of the tool indices holds tool indices only. */
  lemma CompletionOrderInRange(n: nat, picks: seq<nat>)
    ensures forall k :: 0 <= k < n ==> CompletionOrder(Range(0, n), picks)[k] < n
  {
    var order := CompletionOrder(Range(0, n), picks);
    forall k | 0 <= k < n
      ensures order[k] < n
    {
      assert order[k] in multiset(order);
      assert order[k] in multiset(Range(0, n));
    }
  }

  /** A zero or negative `max_workers` makes the pool constructor raise before any
      tool runs. */
  lemma ParallelRejectsEmptyPool(tools: seq<Value>, m: int, outcome: nat -> Runner.ToolOutcome,
                                 futureError: nat -> Option<string>, picks: seq<nat>)
    requires m <= 0
    ensures Parallel(tools, Int(m), outcome, futureError, picks) ==
      StrategyRun([], [], Some("max_workers must be greater than 0"), [])
  {
  }

  // ---------------------------------------------------------------------------
  // One phase
  // ---------------------------------------------------------------------------

  function CountSuccess(results: seq<ToolResult>): (n: nat)
    ensures n <= |results|
    ensures n == |results| <==> forall k :: 0 <= k < |results| ==> results[k].success
  {
    if results == [] then 0
    else (if results[0].success then 1 else 0) + CountSuccess(results[1..])
  }

  /** The minimum-success check: all tools succeeding always passes; otherwise the
      count must reach `min_success`, and a value that is not an integer cannot be
      compared. */
  function Threshold(successful: nat, total: nat, minSuccess: Value, name: Value): (raised: Option<string>)
    ensures raised.None? <==> successful == total || (IntLike(minSuccess).Some? && successful >= IntLike(minSuccess).value)
    ensures raised.Some? && IntLike(minSuccess).Some? ==>
      raised.value == "Only " + IntToString(successful) + " tools succeeded in " + PyStr(name) + ". Minimum " + PyStr(minSuccess) + " required."
  {
    if successful == total then None
    else
      match IntLike(minSuccess)
      case Some(m) =>
        if successful >= m then None
        else Some("Only " + IntToString(successful) + " tools succeeded in " + PyStr(name) + ". Minimum " + PyStr(minSuccess) + " required.")
      case None => Some("'>=' not supported between instances of 'int' and '" + TypeName(minSuccess) + "'")
  }

  /** A phase whose tools all succeed passes whatever `min_success` says, even above
      the number of tools. */
  lemma AllSucceededPasses(n: nat, m: int, name: Value)
    requires m > n
    ensures Threshold(n, n, Int(m), name).None?
    ensures forall s: nat :: s < n ==> Threshold(s, n, Int(m), name).Some?
  {
  }

  /** What one phase did: the results stored under its name (when it got that far),
      its errors, the exception it raised and the tools it launched. */
  datatype PhaseOutcome = PhaseOutcome(stored: Option<(Value, seq<ToolResult>)>, errors: seq<string>, raised: Option<string>, invoked: seq<nat>)

  /** What `run_tool_subprocess` returns for each tool of phase `idx`. */
  function ToolOutcomes(world: World, idx: nat, timeout: Value): nat -> Runner.ToolOutcome {
    (j: nat) => Runner.RunToolSubprocess(world.exec(idx, j), timeout)
  }

  /** The tools of phase `idx`, run in the phase's mode. */
  function RunTools(s: PhaseSettings, tools: seq<Value>, idx: nat, world: World): StrategyRun {
    if s.parallel then Parallel(tools, s.maxWorkers, ToolOutcomes(world, idx, s.timeout), (j: nat) => world.futureError(idx, j), world.picks(idx))
    else Sequential(tools, 0, s.critical, ToolOutcomes(world, idx, s.timeout))
  }

  /** `run_phase(phase_config)` for the phase at index `idx`. */
  function RunPhase(phase: Fields, idx: nat, world: World): (o: PhaseOutcome)
    ensures o.stored.Some? ==> Dict.Get(phase, "name") == Some(o.stored.value.0)
    ensures o.raised.None? ==> o.stored.Some?
  {
    match ReadPhase(phase)
    case Err(e) => PhaseOutcome(None, [], Some(e), [])
    case Ok(s) =>
      if !Truthy(s.tools) then PhaseOutcome(Some((s.name, [])), [], None, [])
      else
        match Iterate(s.tools)
        case Err(e) =>
          var msg := if s.parallel then "object of type '" + TypeName(s.tools) + "' has no len()" else e;
          PhaseOutcome(None, [], Some(msg), [])
        case Ok(tools) =>
          var run := RunTools(s, tools, idx, world);
          if run.raised.Some? then PhaseOutcome(None, run.errors, run.raised, run.invoked)
          else PhaseOutcome(Some((s.name, run.results)), run.errors, Threshold(CountSuccess(run.results), |tools|, s.minSuccess, s.name), run.invoked)
  }

  /** A phase without tools stores an empty result list, launches nothing and never
      raises, whatever its other settings. */
  lemma EmptyPhaseSkipped(phase: Fields, idx: nat, world: World)
    requires "name" in Dict.Keys(phase)
    requires "tools" !in Dict.Keys(phase) || !Truthy(Dict.Get(phase, "tools").value)
    ensures RunPhase(phase, idx, world) == PhaseOutcome(Some((Dict.Get(phase, "name").value, [])), [], None, [])
  {
  }

  /** A phase with a non-empty list of tools runs them in its mode; the results are
      stored unless running them raised, and then the threshold is checked. */
  lemma RunPhaseListed(phase: Fields, idx: nat, world: World)
    requires ReadPhase(phase).Ok?
    requires var s := ReadPhase(phase).value; s.tools.List? && s.tools.items != []
    ensures var s := ReadPhase(phase).value;
      var run := RunTools(s, s.tools.items, idx, world);
      RunPhase(phase, idx, world) ==
        if run.raised.Some? then PhaseOutcome(None, run.errors, run.raised, run.invoked)
        else PhaseOutcome(Some((s.name, run.results)), run.errors, Threshold(CountSuccess(run.results), |s.tools.items|, s.minSuccess, s.name), run.invoked)
  {
    var s := ReadPhase(phase).value;
    assert Truthy(s.tools);
  }

  /** A critical sequential phase whose tool `f` is the first to fail raises that
      tool's error, stores nothing and launches no later tool. */
  lemma CriticalPhaseStoresNothing(phase: Fields, idx: nat, world: World, f: nat)
    requires ReadPhase(phase).Ok?
    requires var s := ReadPhase(phase).value;
      && s.tools.List? && s.tools.items != [] && AllStr(s.tools.items) && !s.parallel && s.critical
      && f < |s.tools.items|
      && !Runner.RunToolSubprocess(world.exec(idx, f), s.timeout).success
      && forall j :: 0 <= j < f ==> Runner.RunToolSubprocess(world.exec(idx, j), s.timeout).success
    ensures var s := ReadPhase(phase).value;
      var o := RunPhase(phase, idx, world);
      && o.stored.None?
      && o.invoked == Range(0, f + 1)
      && o.raised == Some(FailureMessage(s.tools.items[f].s, Runner.RunToolSubprocess(world.exec(idx, f), s.timeout)))
  {
    var s := ReadPhase(phase).value;
    RunPhaseListed(phase, idx, world);
    SequentialCriticalFailFast(s.tools.items, ToolOutcomes(world, idx, s.timeout), f);
  }

  /** A phase that finished its tools raises exactly when fewer succeeded than the
      threshold demands; `critical` plays no part in this check. */
  lemma ThresholdIgnoresCritical(phase: Fields, idx: nat, world: World)
    requires ReadPhase(phase).Ok?
    requires var s := ReadPhase(phase).value; s.tools.List? && s.tools.items != [] && AllStr(s.tools.items) && !s.parallel && !s.critical
    ensures var s := ReadPhase(phase).value;
      var o := RunPhase(phase, idx, world);
      && o.stored.Some?
      && |o.stored.value.1| == |s.tools.items|
      && o.raised == Threshold(CountSuccess(o.stored.value.1), |s.tools.items|, s.minSuccess, s.name)
  {
    var s := ReadPhase(phase).value;
    RunPhaseListed(phase, idx, world);
    SequentialNonCriticalRunsAll(s.tools.items, ToolOutcomes(world, idx, s.timeout));
  }

  // ---------------------------------------------------------------------------
  // The whole run
  // ---------------------------------------------------------------------------

  /** `self.results`, `self.errors` and how many phases have started so far (phases
      start in list order, so these are the first `started` ones). */
  datatype RunState = RunState(results: Dict.Dict<Value, seq<ToolResult>>, errors: seq<string>, started: nat)

  /** What every phase would do when run: phases do not depend on each other. */
  function PhaseOutcomes(phases: seq<Fields>, world: World): (outs: seq<PhaseOutcome>)
    ensures |outs| == |phases|
    ensures forall j {:trigger RunPhase(phases[j], j, world)} :: 0 <= j < |phases| ==> outs[j] == RunPhase(phases[j], j, world)
  {
    if phases == [] then []
    else
      var n := |phases| - 1;
      var init := PhaseOutcomes(phases[..n], world);
      assert forall j :: 0 <= j < n ==> init[j] == RunPhase(phases[j], j, world) by {
        forall j | 0 <= j < n
          ensures init[j] == RunPhase(phases[j], j, world)
        {
          assert phases[..n][j] == phases[j];
        }
      }
      init + [RunPhase(phases[n], n, world)]
  }

  /** The state after the phase at index `i` ended with `o`: its results (if any) are
      stored under its name and its errors appended. */
  function AfterPhase(o: PhaseOutcome, i: nat, acc: RunState): (r: RunState)
    ensures r.started == acc.started + 1
    ensures |r.errors| == |acc.errors| + |o.errors| && r.errors[..|acc.errors|] == acc.errors && r.errors[|acc.errors|..] == o.errors
    ensures o.stored.Some? ==> Dict.Get(r.results, o.stored.value.0) == Some(o.stored.value.1)
    ensures forall name :: (o.stored.None? || name != o.stored.value.0) ==> Dict.Get(r.results, name) == Dict.Get(acc.results, name)
  {
    var results :=
      match o.stored
      case Some((name, rs)) => Dict.Set(acc.results, name, rs)
      case None => acc.results;
    RunState(results, acc.errors + o.errors, acc.started + 1)
  }

  /** The loop `for phase_config in self.phases: self.run_phase(phase_config)` from
      phase `i` on, the phases ending with `outs`; the first exception ends it. */
  function RunPhasesFrom(outs: seq<PhaseOutcome>, i: nat, acc: RunState): (r: (RunState, Option<string>))
    requires i <= |outs|
    ensures acc.started < r.0.started <= acc.started + |outs| - i || (i == |outs| && r.0.started == acc.started)
    ensures r.1.None? ==> r.0.started == acc.started + |outs| - i
    ensures |acc.errors| <= |r.0.errors| && r.0.errors[..|acc.errors|] == acc.errors
    decreases |outs| - i
  {
    if i == |outs| then (acc, None)
    else
      var next := AfterPhase(outs[i], i, acc);
      if outs[i].raised.Some? then (next, outs[i].raised)
      else RunPhasesFrom(outs, i + 1, next)
  }

  /** The first phase from `i` on that raises, or `|outs|`. */
  function FirstRaise(outs: seq<PhaseOutcome>, i: nat): (k: nat)
    requires i <= |outs|
    ensures i <= k <= |outs|
    ensures forall j :: i <= j < k ==> outs[j].raised.None?
    ensures k < |outs| ==> outs[k].raised.Some?
    decreases |outs| - i
  {
    if i == |outs| || outs[i].raised.Some? then i else FirstRaise(outs, i + 1)
  }

  /** How many phases from `i` on start: up to and including the first that raises. */
  function StartedCount(outs: seq<PhaseOutcome>, i: nat): nat
    requires i <= |outs|
  {
    var k := FirstRaise(outs, i);
    if k < |outs| then k + 1 - i else k - i
  }

  /** Phases start strictly in list order, up to and including the first that raises,
      whose exception ends the loop; if none raises, all start. */
  lemma RunPhasesSpec(outs: seq<PhaseOutcome>, i: nat, acc: RunState)
    requires i <= |outs|
    ensures var k := FirstRaise(outs, i);
      && RunPhasesFrom(outs, i, acc).0.started == acc.started + StartedCount(outs, i)
      && RunPhasesFrom(outs, i, acc).1 == if k < |outs| then outs[k].raised else None
  {
    RunPhasesStarted(outs, i, acc);
    RunPhasesRaised(outs, i, acc);
  }

  lemma {:induction false} RunPhasesStarted(outs: seq<PhaseOutcome>, i: nat, acc: RunState)
    requires i <= |outs|
    ensures RunPhasesFrom(outs, i, acc).0.started == acc.started + StartedCount(outs, i)
    decreases |outs| - i
  {
    if i < |outs| && outs[i].raised.None? {
      RunPhasesFromStep(outs, i, acc);
      RunPhasesStarted(outs, i + 1, AfterPhase(outs[i], i, acc));
    }
  }

  /** A phase that returns hands its state on to the next one. */
  lemma RunPhasesFromStep(outs: seq<PhaseOutcome>, i: nat, acc: RunState)
    requires i < |outs| && outs[i].raised.None?
    ensures RunPhasesFrom(outs, i, acc) == RunPhasesFrom(outs, i + 1, AfterPhase(outs[i], i, acc))
  {
  }

  lemma {:induction false} RunPhasesRaised(outs: seq<PhaseOutcome>, i: nat, acc: RunState)
    requires i <= |outs|
    ensures var k := FirstRaise(outs, i);
      RunPhasesFrom(outs, i, acc).1 == if k < |outs| then outs[k].raised else None
    decreases |outs| - i
  {
    if i < |outs| && outs[i].raised.None? {
      var next := AfterPhase(outs[i], i, acc);
      RunPhasesRaised(outs, i + 1, next);
    }
  }

  /** What a run ended with: its exit code, `self.results`, `self.errors`, the
      phases started and the failure reported (none on success). */
  datatype RunReport = RunReport(
    exitCode: int, results: Dict.Dict<Value, seq<ToolResult>>, errors: seq<string>, started: nat, failure: Option<string>)

  const RequiredEnvVars: seq<string> := ["ANTHROPIC_API_KEY"]
  const OptionalEnvVars: seq<string> := ["USER_EMAIL"]

  function Stopped(message: string): RunReport {
    RunReport(1, [], [], 0, Some(message))
  }

  /** The checks that come before any phase: the config loads (defaults applied,
      validated, phases resolved), its requirements hold and the required environment
      variables are set.  Yields the resolved phases. */
  function Prepare(raw: Fields, env: Env.Environ, fileExists: string -> bool): (r: Result<seq<Fields>, string>)
    ensures r.Ok? ==> Config.ValidateConfig(Config.ApplyDefaults(raw, Config.DefaultConfig)).Ok?
    ensures r.Ok? ==> Config.GetPhases(Config.ApplyDefaults(raw, Config.DefaultConfig)) == Ok(r.value)
    ensures r.Ok? ==>
      var req := Validation.ReadRequirements(Config.ApplyDefaults(raw, Config.DefaultConfig));
      req.Ok? && Validation.ValidateWorkflow(req.value, env, fileExists).valid
    ensures r.Ok? ==> forall v :: v in RequiredEnvVars ==> Env.IsSet(env, v)
    ensures r.Err? <==>
      || Config.ValidateConfig(Config.ApplyDefaults(raw, Config.DefaultConfig)).Err?
      || Config.GetPhases(Config.ApplyDefaults(raw, Config.DefaultConfig)).Err?
      || Validation.ReadRequirements(Config.ApplyDefaults(raw, Config.DefaultConfig)).Err?
      || !Validation.ValidateWorkflow(Validation.ReadRequirements(Config.ApplyDefaults(raw, Config.DefaultConfig)).value, env, fileExists).valid
      || exists v :: v in RequiredEnvVars && !Env.IsSet(env, v)
  {
    var config := Config.ApplyDefaults(raw, Config.DefaultConfig);
    var _ :- Config.ValidateConfig(config);
    var phases :- Config.GetPhases(config);
    var req :- Validation.ReadRequirements(config);
    var v := Validation.ValidateWorkflow(req, env, fileExists);
    if !v.valid then Err(Validation.FormatValidationError(v))
    else
      var _ :- Runner.ValidateEnvironment(RequiredEnvVars, OptionalEnvVars, env);
      Ok(phases)
  }

  /** The phase loop of `run()` given what each phase does, with its exit status: 0
      when every phase returned, 1 when one raised. */
  function RunOutcomes(outs: seq<PhaseOutcome>): (r: RunReport)
    ensures r.exitCode == 0 || r.exitCode == 1
    ensures r.exitCode == 0 <==> r.failure.None?
  {
    RunPhasesSpec(outs, 0, RunState([], [], 0));
    var (st, raised) := RunPhasesFrom(outs, 0, RunState([], [], 0));
    RunReport(if raised.Some? then 1 else 0, st.results, st.errors, st.started, raised)
  }

  /** The phase loop of `run()` over the resolved phases. */
  function RunPhases(phases: seq<Fields>, world: World): (r: RunReport)
    ensures r.exitCode == 0 || r.exitCode == 1
    ensures r.exitCode == 0 <==> r.failure.None?
  {
    RunOutcomes(PhaseOutcomes(phases, world))
  }

  /** `run()` once the checks before the phases have ended with `prepared`: a failed
      check is reported with status 1, otherwise the phases run. */
  function Finish(prepared: Result<seq<Fields>, string>, world: World): (r: RunReport)
    ensures r.exitCode == 0 || r.exitCode == 1
    ensures r.exitCode == 0 <==> r.failure.None?
    ensures prepared.Err? ==> r.exitCode == 1 && r.started == 0 && r.failure == Some(prepared.error)
  {
    match prepared
    case Err(e) => Stopped(e)
    case Ok(phases) => RunPhases(phases, world)
  }

  /** `WorkflowRunner().run()` on the YAML mapping `raw` (the runner's constructor
      loads the config; its failure also ends the program with status 1). */
  function Run(raw: Fields, env: Env.Environ, fileExists: string -> bool, world: World): (r: RunReport)
    ensures r.exitCode == 0 || r.exitCode == 1
    ensures r.exitCode == 0 <==> r.failure.None?
  {
    Finish(Prepare(raw, env, fileExists), world)
  }

  /** The loop succeeds exactly when no phase raises; then every phase started, in
      order. */
  lemma OutcomesSucceedIff(outs: seq<PhaseOutcome>)
    ensures var r := RunOutcomes(outs);
      && (r.exitCode == 0 <==> forall j :: 0 <= j < |outs| ==> outs[j].raised.None?)
      && (r.exitCode == 0 ==> r.started == |outs|)
  {
    RunPhasesSpec(outs, 0, RunState([], [], 0));
  }

  /** The loop stops at the first phase that raises: the last phase started is the
      one whose exception is reported and every earlier one returned. */
  lemma OutcomesStopAtFirstFailure(outs: seq<PhaseOutcome>)
    ensures var r := RunOutcomes(outs);
      r.exitCode == 1 ==>
        var last := r.started - 1;
        && 0 <= last < |outs|
        && r.failure == outs[last].raised
        && forall j :: 0 <= j < last ==> outs[j].raised.None?
  {
    RunPhasesSpec(outs, 0, RunState([], [], 0));
  }

  /** The phase loop succeeds exactly when no phase raises; then every phase
      started, in order. */
  lemma PhasesSucceedIff(phases: seq<Fields>, world: World)
    ensures var r := RunPhases(phases, world);
      && (r.exitCode == 0 <==> forall j :: 0 <= j < |phases| ==> RunPhase(phases[j], j, world).raised.None?)
      && (r.exitCode == 0 ==> r.started == |phases|)
  {
    var outs := PhaseOutcomes(phases, world);
    OutcomesSucceedIff(outs);
    assert RunPhases(phases, world) == RunOutcomes(outs);
    forall j | 0 <= j < |phases|
      ensures outs[j].raised == RunPhase(phases[j], j, world).raised
    {
    }
  }

  /** The phase loop stops at the first phase that raises: the last phase started
      is the one whose exception is reported and every earlier one returned. */
  lemma PhasesStopAtFirstFailure(phases: seq<Fields>, world: World)
    ensures var r := RunPhases(phases, world);
      r.exitCode == 1 ==>
        var last := r.started - 1;
        && 0 <= last < |phases|
        && r.failure == RunPhase(phases[last], last, world).raised
        && forall j :: 0 <= j < last ==> RunPhase(phases[j], j, world).raised.None?
  {
    var outs := PhaseOutcomes(phases, world);
    OutcomesStopAtFirstFailure(outs);
    var r := RunPhases(phases, world);
    assert r == RunOutcomes(outs);
    if r.exitCode == 1 {
      var last := r.started - 1;
      assert outs[last] == RunPhase(phases[last], last, world);
      forall j | 0 <= j < last
        ensures RunPhase(phases[j], j, world).raised.None?
      {
        assert outs[j] == RunPhase(phases[j], j, world);
      }
    }
  }

  /** The run succeeds exactly when the checks pass and no phase raises; then every
      phase started. */
  lemma FinishSucceedsIff(prepared: Result<seq<Fields>, string>, world: World)
    ensures var r := Finish(prepared, world);
      && (r.exitCode == 0 <==>
            prepared.Ok? && forall j :: 0 <= j < |prepared.value| ==> RunPhase(prepared.value[j], j, world).raised.None?)
      && (r.exitCode == 0 ==> r.started == |prepared.value|)
  {
    if prepared.Ok? {
      PhasesSucceedIff(prepared.value, world);
    }
  }

  /** A failed run that started phases stopped at the first phase that raised. */
  lemma FinishStopsAtFirstFailure(prepared: Result<seq<Fields>, string>, world: World)
    ensures var r := Finish(prepared, world);
      r.exitCode == 1 && r.started > 0 ==>
        var last := r.started - 1;
        && prepared.Ok? && last < |prepared.value|
        && r.failure == RunPhase(prepared.value[last], last, world).raised
        && forall j :: 0 <= j < last ==> RunPhase(prepared.value[j], j, world).raised.None?
  {
    if prepared.Ok? {
      FinishRunsPhases(prepared, world);
      PhasesStopAtFirstFailure(prepared.value, world);
    }
  }

  lemma FinishRunsPhases(prepared: Result<seq<Fields>, string>, world: World)
    requires prepared.Ok?
    ensures Finish(prepared, world) == RunPhases(prepared.value, world)
  {
  }

  /** No phase starts unless the config loads, the requirements hold and the required
      variables are set. */
  lemma RunGatesPhases(raw: Fields, env: Env.Environ, fileExists: string -> bool, world: World)
    ensures Run(raw, env, fileExists, world).started > 0 ==> Prepare(raw, env, fileExists).Ok?
    ensures !(forall v :: v in RequiredEnvVars ==> Env.IsSet(env, v)) ==>
      Run(raw, env, fileExists, world).exitCode == 1 && Run(raw, env, fileExists, world).started == 0
  {
  }
}
