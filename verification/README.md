# watflow workflow engine: a Dafny model

This project models the core of watflow, a toolkit for running a workflow made of
phases. Each phase runs tool scripts, either one by one or in a process pool, and
then checks a success threshold. The model is pure Dafny: every process, file,
network and clock effect becomes an input.

What is modelled:

- **Orchestration** (`template/main.py`, module `Orchestrator`).
  - `run` runs the checks before any phase, then the phases in list order.
  - `run_phase` reads a phase's settings and skips a phase without tools.
  - `_run_sequential` runs tools in order, with fail-fast for critical phases.
  - `_run_parallel` launches every tool and collects results in completion order.
  - The minimum-success threshold and the exit status 0/1 are modelled.
  - The `World` record holds what each tool's subprocess ended with, whether a
    parallel future raised, and the order in which futures complete.
  - Completion order is driven by a sequence of "picks". Each pick chooses one of
    the futures still pending. Every permutation of the tools is reachable by some
    picks (`CompletionOrderReachable`).
- **Tool outcome** (`watflow/runner.py`, module `Runner`): `run_tool_subprocess` maps
  a completed process, a timeout or a launch exception to
  `(success, stdout, stderr, returncode)`. Also modelled: `get_workflow_name` and
  `validate_environment`.
- **Configuration** (`watflow/config.py`, module `Config`):
  - `_apply_defaults` (recursive merge).
  - `validate_config`, split into its four sections and checked in source order.
  - `_validate_phase_settings`.
  - `get_phases`, which resolves settings in three layers.
  - `get_phase_by_name`.
  - `get_model_config`, with its fallback to the `default` model.
- **Requirements** (`watflow/validation.py`, module `Validation`):
  `validate_workflow` and `format_validation_error`. The environment is a map;
  file existence is a predicate.
- **Environment** (`watflow/env.py`, module `Env`): `check_env`, `get_env`,
  `parse_env_example` (the file is its list of lines) and
  `validate_env_from_example`.
- **CLI helpers** (`watflow/cli.py`, module `Cli`):
  - `schedule_to_cron`, with a cron reader that shows the output reads back.
  - The `.env` reader and `modal secret create` arguments of `create_modal_secret`.
  - The category filter and description truncation of `list_workflows`.
- **Gmail parsing** (`watflow/integrations/gmail.py`, module `Gmail`):
  - `_parse_message`.
  - The pre-order walks of `_extract_body` and `_extract_attachments` over the
    MIME part tree. Base64 decoding is an opaque `decode` function.
  - The parameters of `users.messages.list` built in `get_messages`.
  - The body of `users.messages.modify` built in `_modify_labels`.

Shared modules:

- `Wrappers`: `Option`, and `Result` for a call that raises.
- `Dict`: a Python `dict` as an insertion-ordered association list.
- `Text`: `strip`, ASCII `lower`, `split`, `join`, `int()` and `str()`.
- `Json`: the YAML/JSON value, with Python truthiness, `str()` and type names.
- `Seqs`: associativity of concatenation.

### Where the code and the documented design differ

The model follows the code in every case below.

- A phase that misses its `min_success` threshold always raises and ends the run
  (template/main.py:131-140). The design says a non-critical phase only adds a
  warning. `critical` only switches on the per-tool fail-fast of sequential mode
  (template/main.py:168-169). See `ThresholdIgnoresCritical`.
- A partial success (threshold met, not every tool succeeded) only prints a line.
  Nothing is appended to `self.errors` (template/main.py:133-134).
- With `critical`, the first failing sequential tool raises at once. The phase's
  results are never stored and the threshold is never checked
  (template/main.py:168-169, 125). See `CriticalPhaseStoresNothing`.
- A phase whose tools all succeed passes even when `min_success` exceeds the
  number of tools (template/main.py:131). See `AllSucceededPasses`.
- `parse_env_example` marks a variable as required when its line mentions "required"
  anywhere, not only in a `# required` comment (watflow/env.py:139). See
  `ClassifyExampleLine`.

## Model

| member | source | states |
|---|---|---|
| Orchestrator.ReadPhase | template/main.py:101-107 | A missing `name` is an error (`KeyError`); otherwise the name is the phase's. A present `tools`, `max_workers`, `timeout` or `min_success` is read as given, and `parallel` and `critical` by their truth value. An absent setting reads as its fallback: no tools, sequential, 4 workers, timeout 120, critical, `min_success` 0. |
| Orchestrator.ReadPhaseDefaultsAgree | template/main.py:103-107 | The fallbacks `run_phase` uses are the same values as `DEFAULT_PHASE_SETTINGS`. |
| Json.Iterate | template/main.py:150 | `for x in v`: a list yields its items, a string its characters as one-character strings, in order, and a dict its keys in insertion order. Any other value raises "'T' object is not iterable". |
| Orchestrator.FailureMessage | template/main.py:163-165 | A failure message starts with "<tool> failed (code N)". It is exactly that when stderr is blank. Otherwise ": " and the non-blank stripped stderr follow. |
| Orchestrator.Sequential | template/main.py:144-173 | At most one result per launched tool, at most one error per launched tool, and no more launches than tools. It returns without raising iff every tool yields a result, and then every tool was launched. |
| Orchestrator.SequentialResults | template/main.py:150-171 | The results are one `{tool, success}` per tool before the stopping point, in declaration order. |
| Orchestrator.SequentialRaises | template/main.py:162-169 | Sequential mode raises iff it stops early. A non-path tool raises before it is launched. A critical phase's failing tool raises its own error after being launched. Otherwise every tool is launched, in order. |
| Orchestrator.SequentialErrors | template/main.py:161-166 | The errors are exactly one failure message per launched tool that failed, in order. |
| Orchestrator.SequentialNonCriticalRunsAll | template/main.py:144-173 | Without `critical`, every tool runs once in declaration order, yields one result in that order and never raises. |
| Orchestrator.SequentialCriticalFailFast | template/main.py:166-171 | With `critical`, the first failing tool stops the phase. Later tools never run. The failing tool adds its error but no result, and the phase raises that error. |
| Orchestrator.Collect | template/main.py:190-209 | One result per collected future, in completion order. A future that raised counts as failed. The errors plus the successes add up to the number of futures. |
| Orchestrator.FailedFutures | template/main.py:190-207 | A future is listed iff it completed and its result is a failure. There are no more entries than completed futures. |
| Orchestrator.CollectErrors | template/main.py:193-207 | The errors are, in completion order, one per failed future: "<tool> error: e" for a future that raised, else the tool's failure message. A successful future appends none. |
| Orchestrator.CompletionOrder | template/main.py:190 | A completion order is a permutation of the pending futures. |
| Orchestrator.CompletionOrderReachable | template/main.py:190 | Every permutation of the futures is a possible completion order. |
| Orchestrator.Parallel | template/main.py:175-211 | When parallel mode does not raise, every tool was launched and yields exactly one result. |
| Orchestrator.ParallelSpec | template/main.py:182-209 | With at least one tool and a positive integer `max_workers`, the phase never raises. Every tool is launched. The results follow a permutation of the tools, with failure where the future raised. Each failed tool appends exactly one error. |
| Orchestrator.ParallelErrorTexts | template/main.py:182-209 | In a parallel phase the errors are, in completion order, the texts of the failed futures: "<tool> error: e" where the future raised, else the failure message. A tool fails iff its future raised or its outcome failed. |
| Orchestrator.ParallelRejectsEmptyPool | template/main.py:182 | A zero or negative pool size raises before any tool runs. |
| Orchestrator.CountSuccess | template/main.py:128 | The success count never exceeds the number of results. It equals that number iff every result succeeded. |
| Orchestrator.Threshold | template/main.py:127-140 | The threshold passes iff every tool succeeded, or the success count reaches an integer `min_success`. A failure carries the "Only N tools succeeded in <phase>. Minimum M required." message. |
| Orchestrator.AllSucceededPasses | template/main.py:131-137 | When every tool succeeds, the phase passes even if `min_success` exceeds the tool count. Any fewer successes then fail. |
| Orchestrator.RunPhase | template/main.py:91-142 | A phase stores results only under its own name. A phase that does not raise has stored its results. |
| Orchestrator.EmptyPhaseSkipped | template/main.py:113-117 | A phase without tools stores an empty list, launches nothing and never raises, whatever its other settings. |
| Orchestrator.CriticalPhaseStoresNothing | template/main.py:120-125 | In a critical sequential phase, the first failing tool raises its error. Nothing is stored and no later tool is launched. |
| Orchestrator.ThresholdIgnoresCritical | template/main.py:127-140 | A non-critical phase that ran all its tools still raises exactly when the threshold fails. |
| Orchestrator.RunPhasesSpec | template/main.py:82-83 | Phases start in list order, up to and including the first one that raises. That phase's exception ends the loop. |
| Orchestrator.AfterPhase | template/main.py:119-125 | After a phase, one more phase has started. Its errors follow the earlier ones, its results are stored under its name, and every other name keeps its results. |
| Orchestrator.RunPhasesFrom | template/main.py:82-83 | The loop starts at least one and at most the remaining phases. If nothing raises, every remaining phase started. Earlier errors are kept, in front. |
| Orchestrator.Prepare | template/main.py:67-79 | No phase is prepared unless four checks pass: the config validates, its phases resolve, the requirements hold and every required variable is set. A failure of any of them stops the run. The first two run when the runner is built (watflow/runner.py:55-61). |
| Orchestrator.RunOutcomes | template/main.py:82-89 | The exit status is 0 or 1, and it is 0 iff no failure is reported. |
| Orchestrator.RunPhases | template/main.py:82-89 | The exit status is 0 or 1, and it is 0 iff no failure is reported. |
| Orchestrator.Finish | template/main.py:67-89 | A failed check before the phases exits with 1, starts no phase and reports that failure. |
| Orchestrator.Run | template/main.py:51-89 | `run()` returns 0 or 1, and 0 iff no failure is reported. |
| Orchestrator.OutcomesSucceedIff | template/main.py:82-89 | The loop exits with 0 iff no phase raises. Then every phase started. |
| Orchestrator.OutcomesStopAtFirstFailure | template/main.py:82-89 | On exit 1, the last phase started is the one whose exception is reported. Every earlier phase returned. |
| Orchestrator.PhasesSucceedIff | template/main.py:82-86 | Over the configured phases: exit 0 iff no `run_phase` call raises. Then all phases started. |
| Orchestrator.PhasesStopAtFirstFailure | template/main.py:82-89 | Over the configured phases: a failing run stopped at the first phase that raised. No later phase started. |
| Orchestrator.FinishSucceedsIff | template/main.py:67-89 | The run exits with 0 iff the checks pass and no phase raises. |
| Orchestrator.FinishStopsAtFirstFailure | template/main.py:67-89 | A failed run that started phases stopped at the first phase that raised. |
| Orchestrator.RunGatesPhases | template/main.py:70-79 | No phase starts unless the checks pass. A missing required variable exits with 1 before any phase. |
| Runner.RunToolSubprocess | watflow/runner.py:106-122 | Success iff the return code is 0. A completed process passes stdout, stderr and the code through. A timeout gives (False, "", "Timed out after Ns", -1). A launch exception gives (False, "", message, -1). It never raises. |
| Runner.TimeoutDistinguishable | watflow/runner.py:113-120 | A timeout and a process that exits with a positive code both fail, with different return codes. |
| Runner.GetWorkflowName | watflow/runner.py:88-90 | The workflow's `name`, or "Unnamed Workflow" when it is absent. |
| Runner.ValidateEnvironment | watflow/runner.py:63-75 | With no required variables it returns True without checking. Otherwise it raises iff a required variable is unset or empty. |
| Validation.ReadRequirements | watflow/validation.py:27-36 | A section that is not a dict fails (it has no `get`). `env` and `files` are read as `for` visits them: a list's items, a string's characters, a dict's keys. The result is Ok iff both can be iterated and hold only strings, and then it lists exactly those strings, in order. A non-iterable `env` is reported before `files`. The first non-string variable name gives "str expected, not T", and the first non-string path gives the `PosixPath` `/` operand error. Without the section nothing is required. |
| Validation.StringEnvReadsCharacters | watflow/validation.py:30-33 | `env: "AB"` requires the variables "A" and "B". A section without `files` requires no file. |
| Validation.Absent | watflow/validation.py:36-39 | The missing files are exactly the listed paths that do not exist. |
| Validation.AbsentAppend | watflow/validation.py:36-39 | The missing files keep the config order. |
| Validation.ValidateWorkflow | watflow/validation.py:23-41 | `missing_env` is exactly the unset or empty required variables, and `missing_files` exactly the absent files. The result is valid iff both lists are empty. |
| Validation.NoRequirementsIsValid | watflow/validation.py:27-41 | Without a `requirements` section the result is valid, with nothing missing. |
| Validation.Bullets | watflow/validation.py:50-51 | One "  - name" line per entry, in order. |
| Validation.ErrorLines | watflow/validation.py:46-57 | The variables section (heading, bullets, then the advice line "\nAdd these to your .env file\n") comes before the files section (heading, bullets). An empty list contributes no section. |
| Validation.FormatValidationError | watflow/validation.py:44-59 | The message is empty iff nothing is missing. |
| Env.Unset | watflow/env.py:64-68 | The missing names are exactly the names that are unset or empty. |
| Env.UnsetAppend | watflow/env.py:64-68 | The missing names keep the given order. |
| Env.CheckEnv | watflow/env.py:41-82 | There is one entry per required and optional name, true iff the variable is set and non-empty. It raises iff `raise_on_missing` holds and a required name is unset; the message lists the missing names. |
| Env.GetEnv | watflow/env.py:85-105 | Returns the environment's value, even when empty, else the default. It raises only when both are missing and `required` holds. |
| Env.ClassifyExampleLine | watflow/env.py:131-148 | Three kinds of line are skipped: blank, `#` and without `=`. Otherwise the name is the stripped text before the first `=`. It is required iff the lowered line contains "required" anywhere. |
| Env.Declared | watflow/env.py:127-148 | Each declaring line contributes at most one name. |
| Env.DeclaredMembers | watflow/env.py:142-148 | A name is listed as required (optional) iff some line declares it so. |
| Env.DeclaredAppend | watflow/env.py:130-148 | The declared names keep file order. |
| Env.ParseEnvExample | watflow/env.py:121-150 | An absent file declares nothing. A present file declares exactly the names `Declared` takes from its classified lines, so `Env.DeclaredMembers` and `Env.DeclaredAppend` describe it, and no more names than it has lines. |
| Env.ValidateEnvFromExample | watflow/env.py:153-175 | It raises iff `raise_on_missing` holds and a declared required variable is unset. An absent file gives an empty status. |
| Config.DefaultPhaseSettingsValues | watflow/config.py:20-27 | The default settings: parallel False, max_workers 4, timeout 120, retry 0, critical True, min_success 0. |
| Config.DefaultConfigModels | watflow/config.py:38-44 | The built-in `models` section holds only the `default` model entry. |
| Config.ApplyDefaults | watflow/config.py:100-110 | Every default key survives the merge. |
| Config.MergeFrom | watflow/config.py:104-108 | The merge loop never drops a key. |
| Config.MergeFromSpec | watflow/config.py:104-110 | After the loop, each remaining config key holds its merged value. Every other key keeps the value it had. |
| Config.ApplyDefaultsSpec | watflow/config.py:100-110 | A key only in the defaults keeps the default. A key only in the config keeps the config value. A key in both takes the config value, unless both values are dicts, which are merged recursively. The result has exactly the keys of both. |
| Config.CheckSettingsFrom | watflow/config.py:185-213 | The settings check passes iff every present checked setting has the right type. |
| Config.ValidatePhaseSettings | watflow/config.py:185-213 | Passes iff the present settings are well-typed: max_workers an int at least 1, timeout positive, parallel and critical bools, min_success and retry non-negative ints. Absent keys are not checked. A failure reports the first failing setting in the order max_workers, timeout, parallel, critical, min_success, retry. |
| Config.SettingsErrorNamesKey | watflow/config.py:189-213 | A settings error names one of the six checked settings. |
| Config.PhasesOkStep | watflow/config.py:151-170 | A valid entry with a new name passes iff the rest passes, with its name now seen. |
| Config.CheckPhasesFrom | watflow/config.py:151-170 | The phase loop passes iff every remaining entry is valid, new and distinct from the later ones. |
| Config.PhasesOkStart | watflow/config.py:151-170 | From the start, the phase loop's condition is: every entry is valid and the names are pairwise distinct. |
| Config.CheckModelsFrom | watflow/config.py:177-182 | Passes iff every model entry is a dict with a `model` key. |
| Config.CheckWorkflow | watflow/config.py:129-134 | Passes iff `workflow` is a dict with a truthy `name`. A non-dict gives "'workflow' must be a dictionary"; any other failure is "'workflow.name' is required". |
| Config.CheckDefaults | watflow/config.py:137-141 | Passes iff `defaults` is a dict with well-typed settings. A non-dict gives "'defaults' must be a dictionary"; otherwise the settings check of `defaults` decides. |
| Config.CheckPhases | watflow/config.py:144-170 | Passes iff `phases` is a non-empty list of valid entries with distinct names. A non-list gives "'phases' must be a list" and an empty list "'phases' must contain at least one phase". |
| Config.CheckModels | watflow/config.py:173-182 | Passes iff `models` is a dict whose entries are all dicts with a `model` key. A non-dict gives "'models' must be a dictionary". |
| Config.ValidateConfig | watflow/config.py:113-182 | Validation passes iff every section rule holds. The first violation decides the message: a missing `workflow`, then a missing `phases`, then the workflow, defaults, phases and models checks, in that order. |
| Config.ValidPhaseNamesDistinct | watflow/config.py:159-162 | In a valid config, all phase entries are valid and their names pairwise distinct. |
| Config.DuplicatePhaseRejected | watflow/config.py:159-161 | Two phases with the same name make validation fail. |
| Config.UpdateTwice | watflow/config.py:246-248 | Updating a dict twice: each key takes its value from the last layer that has it. No key of the base is lost and keys stay distinct. |
| Config.ResolvePhase | watflow/config.py:246-249 | A resolved phase holds each setting from the phase, else `defaults`, else `DEFAULT_PHASE_SETTINGS`. All six defaults are present. |
| Config.ResolveAll | watflow/config.py:244-249 | One resolved phase per entry, in order. |
| Config.GetDefaults | watflow/config.py:222-227 | The `defaults` value stored in the config, else `DEFAULT_PHASE_SETTINGS`. |
| Json.UpdateArg | watflow/config.py:247-248 | `dict.update(v)`: a dict gives its entries. Anything else must be iterable; the update succeeds iff every element is a key/value pair, taking the pairs in order, and otherwise fails with the first failing element's error. A non-iterable raises its "not iterable" error. |
| Json.OnePairUpdate | watflow/config.py:247-248 | A list holding one `[key, value]` list updates a dict with exactly that one entry. |
| Json.UpdatePair | watflow/config.py:247-248 | Element #i is a pair iff it iterates to exactly two items, the first a string. A non-iterable element and one of another length raise Python's messages, naming i and the length. |
| Config.ResolveItems | watflow/config.py:244-251 | Fails iff `defaults` or some phase item cannot be applied by `dict.update`; the `defaults` error comes first, then the first failing item's. Otherwise one resolved phase per item, in order: the built-in settings updated with `defaults`, then with the item. |
| Config.GetPhases | watflow/config.py:230-251 | The loop visits what `for` visits in `phases` (default []). A non-iterable `phases` fails with Python's message. With nothing to visit the result is [], whatever `defaults` holds. Otherwise the items are resolved against `defaults` as `ResolveItems` states. |
| Config.EmptyPhasesIgnoreDefaults | watflow/config.py:241-251 | An empty list, string or mapping of phases resolves to no phases, whatever `defaults` holds. |
| Config.GetPhasesLayers | watflow/config.py:240-251 | Every resolved phase takes each setting from its entry as `dict.update` reads it, else from `defaults`, else from the built-in value. It carries all six default settings. |
| Config.ValidConfigResolves | watflow/config.py:230-251 | In a valid config `get_phases` succeeds. It gives one resolved phase per listed entry, in order, each entry a dict resolved against the `defaults` dict. |
| Config.FindPhase | watflow/config.py:259-262 | Finds the index of the first phase with the name, or shows that none has it. |
| Config.FirstNamed | watflow/config.py:259-262 | The first phase with the name, or None when no phase has it. |
| Config.GetPhaseByName | watflow/config.py:254-262 | Fails iff `get_phases` fails. Otherwise returns the first resolved phase with the name, or None. |
| Config.GetModelConfig | watflow/config.py:265-296 | With a `models` dict: the stage's entry, else `default`, else "No model configuration found for stage: <stage>". A list or string that contains the stage or "default" fails to index it, with Python's message. One that contains neither reports the missing stage. Any other value does not support `in`. Only a dict gives Ok. |
| Config.DefaultModelAlwaysFound | watflow/config.py:286-294 | A config that does not override `models` resolves every stage, `"default"` included, to the built-in default model. |
| Cli.CronRoundTrip | watflow/cli.py:570-578 | A cron text whose day fields hold no space reads back as itself, unless its minute or hour has more than 4300 digits, which `int()` rejects. |
| Cli.ParseTime | watflow/cli.py:551-557 | A time without exactly one colon falls back to 8:00. The hour and minute read are always within `str()`'s 4300-digit limit. |
| Cli.InfoSeparatorTimeFallsBack | watflow/cli.py:551-557 | A time with an information separator (U+001C–U+001F) in its hour or minute, such as "\x1c9:30", falls back to 8:00, because `int()` does not skip those characters as whitespace. |
| Cli.DefaultTimeParses | watflow/cli.py:551-557 | The default "08:00" reads as 8:00. |
| Cli.PaddedTime | watflow/cli.py:552-555 | A time written as two zero-padded digits reads digit by digit. |
| Cli.ParseTimeOfParts | watflow/cli.py:553-557 | Two colon-free parts joined by a colon read as their integers when both parse. When either does not parse (`ValueError`), the time falls back to 8:00. |
| Cli.ScheduleTime | watflow/cli.py:551-557 | An absent or non-string `schedule_time` reads as 8:00. A string reads as the time it parses to. Either way hour and minute are within the 4300-digit limit. |
| Cli.ParseTimeRoundTrip | watflow/cli.py:553-555 | "H:M" reads back as hour H and minute M, with no range check. With more than 4300 digits in either part it falls back to 8:00. |
| Cli.DayNumber | watflow/cli.py:560-574 | A known day maps to its position, Sunday 0 to Saturday 6. An unknown day maps to 0. |
| Cli.DayNumbersDistinct | watflow/cli.py:560-568 | Each day name maps to its own number. |
| Cli.Schedule | watflow/cli.py:544-580 | No cron for an absent, empty or unknown schedule. Daily gives "* *", weekly the lowered day's number (default sunday), monthly the day of month (default 1). The time comes from `schedule_time`. It is an error when the section is not a dict or a weekly day is not a string. |
| Cli.ScheduleToCron | watflow/cli.py:536-580 | The cron text is the schedule's five fields joined by spaces. |
| Cli.WeeklyOnNamedDay | watflow/cli.py:572-575 | A weekly schedule on a named day, in any letter case, runs on that day's number. |
| Cli.ScheduleCronReadsBack | watflow/cli.py:570-578 | The produced cron text reads back as the schedule asked for. |
| Cli.Unquote | watflow/cli.py:685-688 | One pair of matching surrounding double or single quotes is removed. A lone quote character becomes "". Anything else is unchanged. |
| Cli.EnvLine | watflow/cli.py:680-689 | A parsed line is split at the first `=` of the stripped line. The key is the stripped text before it, with no `=` and no surrounding whitespace. The value is the stripped text after it, unquoted. |
| Cli.EnvLineSkips | watflow/cli.py:680-681 | A line is skipped iff it is blank, a `#` comment, or has no `=`. |
| Cli.EnvLineQuoted | watflow/cli.py:682-689 | `KEY="VALUE"` and `KEY='VALUE'` read back as the key and exactly the quoted value. |
| Cli.EnvLineBare | watflow/cli.py:682-689 | `KEY=VALUE`, with a value that has no surrounding whitespace or quotes, reads back as the key and the value. |
| Cli.UnquoteQuoted | watflow/cli.py:685-688 | Unquoting a double- or single-quoted text gives the text back. |
| Cli.EnvPairs | watflow/cli.py:679-689 | No parsed key contains `=`. There is at most one pair per line. |
| Cli.EnvPairsAppend | watflow/cli.py:679-689 | The pairs keep file order. |
| Cli.ReadDotEnv | watflow/cli.py:675-689 | Keys are distinct and appear in the order of their first line. Each key holds the value of its last line. |
| Cli.LaterLineWins | watflow/cli.py:689 | A later line for a key overrides earlier ones. |
| Cli.SecretCommand | watflow/cli.py:697-699 | The fixed `modal secret create --force <name>-env` prefix, then one argument per variable. |
| Cli.CreateModalSecret | watflow/cli.py:668-699 | No command when the `.env` file is absent or sets nothing. Otherwise the command for the variables read. |
| Cli.SecretArgsReadBack | watflow/cli.py:697-699 | Each `KEY=VALUE` argument splits back, at its first `=`, into exactly the variable read, in order. |
| Cli.FilterCategory | watflow/cli.py:224-225 | Keeps exactly the workflows whose `category` equals the one given. Without a category it keeps all. |
| Cli.FilterCategoryAppend | watflow/cli.py:224-225 | The filter keeps registry order. |
| Cli.FilterCategoryIdempotent | watflow/cli.py:224-225 | Filtering twice is filtering once. |
| Cli.Truncate | watflow/cli.py:253 | A description of at most 40 characters is unchanged. A longer one becomes its first 40 characters then "...". |
| Cli.TruncateIdempotent | watflow/cli.py:253 | Truncating twice is truncating once. |
| Gmail.FirstBody | watflow/integrations/gmail.py:539-544 | The first part of a type whose data decodes to a non-empty text, or "" iff there is none. |
| Gmail.StepAllAppend | watflow/integrations/gmail.py:533-548 | Visiting two runs of parts is visiting the first run, then the second. |
| Gmail.VisitIsPreorder | watflow/integrations/gmail.py:533-550 | The recursive walk visits a part before its sub-parts, in order. |
| Gmail.VisitAllIsPreorder | watflow/integrations/gmail.py:547-548 | The sub-parts are walked in pre-order. |
| Gmail.StepAllFirst | watflow/integrations/gmail.py:539-544 | Once non-empty, a body stays. An empty body becomes the first matching part's text. |
| Gmail.Step | watflow/integrations/gmail.py:536-544 | Visiting one part never overwrites a non-empty body. A body changes only for a part with data and the matching MIME type, and then becomes its decoded data. |
| Gmail.Visit | watflow/integrations/gmail.py:533-548 | The walk of a part and its sub-parts never overwrites a body once it is set. |
| Gmail.ExtractBody | watflow/integrations/gmail.py:524-551 | `body_plain` and `body_html` come from the first `text/plain` and `text/html` parts in pre-order with non-empty decoded data. Parts without data are skipped but their sub-parts are searched. |
| Gmail.Attachments | watflow/integrations/gmail.py:563-571 | At most one record per part. |
| Gmail.AttachmentsMembers | watflow/integrations/gmail.py:563-571 | A record is listed iff some part has a file name and an attachment id and is described by it. |
| Gmail.AttachmentsAppend | watflow/integrations/gmail.py:563-575 | The attachments of two runs of parts are those of each, in turn. |
| Gmail.Collect | watflow/integrations/gmail.py:557-575 | The walk only appends: the attachments found before it are kept, in front. |
| Gmail.CollectIsPreorder | watflow/integrations/gmail.py:557-575 | The recursive walk appends the attachments in pre-order. |
| Gmail.CollectAllIsPreorder | watflow/integrations/gmail.py:574-575 | The sub-parts' attachments are appended in pre-order. |
| Gmail.ExtractAttachments | watflow/integrations/gmail.py:553-578 | The attachments are exactly the pre-order parts with a file name and an attachment id. MIME type defaults to application/octet-stream and size to 0. |
| Gmail.ParseMessage | watflow/integrations/gmail.py:497-522 | Fails iff `id` or `threadId` is missing, with the `KeyError` text of the first missing key. Subject, From, To and Date come from the last header with that name, else "". Snippet defaults to "" and labels to []. |
| Gmail.ParseMessageContent | watflow/integrations/gmail.py:504-520 | The bodies and attachments are those of the payload's pre-order walk. A message without a payload has none. |
| Gmail.ListParams | watflow/integrations/gmail.py:424-428 | The keys are `userId` and `maxResults`, then `q` for a non-empty query and `labelIds` for a non-empty label list, distinct and in that order. |
| Gmail.ListParamsReadBack | watflow/integrations/gmail.py:424-428 | `userId` is "me" and `maxResults` is the request capped at 500. `q` and `labelIds` are present iff non-empty and carry the query and labels. |
| Gmail.ListParamsFixed | watflow/integrations/gmail.py:424 | `userId` is "me"; `maxResults` is `min(max_results, 500)`. |
| Gmail.ListParamsQuery | watflow/integrations/gmail.py:425-426 | `q` is present iff the query is non-empty, and holds it. |
| Gmail.ListParamsLabels | watflow/integrations/gmail.py:427-428 | `labelIds` is present iff the label list is non-empty, and holds it. |
| Gmail.ModifyBody | watflow/integrations/gmail.py:611-617 | No request iff both lists are empty. Otherwise the keys are `addLabelIds` and then `removeLabelIds`, each only for a non-empty list. |
| Gmail.ModifyBodyReadBack | watflow/integrations/gmail.py:611-615 | The body reads back as the labels to add and to remove. |
| Text.Strip | watflow/env.py:132 | `strip()` is the text between the leading and the trailing whitespace: a blank prefix and a blank suffix are removed and the rest is kept. It is empty iff the text is blank, and otherwise neither starts nor ends with whitespace. |
| Text.StripIdempotent | watflow/cli.py:682-689 | Stripping twice is stripping once. |
| Text.StripKeepsOut | watflow/cli.py:680-681 | Stripping adds no character. |
| Text.StripKeepsIn | watflow/cli.py:680-681 | A non-whitespace character survives stripping iff it was there. |
| Text.Lower | watflow/env.py:139 | `lower()` maps each character on its own and keeps the length. |
| Text.ContainsSuffix | watflow/env.py:139 | A text containing "# required" contains "required". |
| Text.Find | watflow/env.py:143 | The index of the first occurrence, or none iff the character is absent. |
| Text.Split | watflow/cli.py:553 | `split(c)` gives one more piece than there are separators, none holding the separator. |
| Text.JoinSplit | watflow/cli.py:553 | Joining the pieces of a split gives the text back. |
| Text.SplitJoin | watflow/cli.py:571 | Splitting a join of separator-free pieces gives the pieces back. |
| Text.SplitFirst | watflow/cli.py:682 | `split(c, 1)` gives the text before and after the first separator, or none iff it is absent. |
| Text.SplitFirstAt | watflow/cli.py:682 | Splitting `a + c + b` at the first `c`, with `c` not in `a`, gives `a` and `b` back. |
| Text.NatToString | watflow/cli.py:571 | `str(n)` is digits only, with no leading zero. |
| Text.IntToString | watflow/cli.py:571 | `str(i)` starts with "-" iff i is negative. |
| Text.ParseInt | watflow/cli.py:554-555 | `int()` succeeds iff the text is not blank, contains none of the information separators U+001C–U+001F (which `int()` does not skip as whitespace), and its stripped form is an optional sign followed by at most 4300 ASCII digits, with single `_` only between digits. The value is that number, negated for `-`, and its rendering stays within the digit limit. |
| Text.ParseIntToString | watflow/cli.py:554-555 | `int(str(i)) == i` when `str(i)` has at most 4300 digits; a longer rendering is rejected. |
| Dict.Get | watflow/config.py:260 | A lookup finds a value iff the key is present, and the pair is in the dict. |
| Dict.Set | template/main.py:125 | Assigning a key stores the value and leaves every other key alone. An existing key keeps its position; a new key goes last. |
| Dict.Update | watflow/config.py:247-248 | `update` gives each key the last value the update supplies, else the old one. It keeps every key and keeps keys distinct. |
| Dict.FromPairs | watflow/integrations/gmail.py:499-501 | A dict built from pairs holds, for each key, the value of its last pair. Its keys are distinct, in the order of their first pair. |
| Dict.LastValueAppend | watflow/cli.py:689 | The last pair for a key decides its value. |
| Dict.LastValueIsGet | watflow/integrations/gmail.py:499-501 | On pairs with distinct keys, the last value for a key is also the first. |
| Json.GetOr | watflow/config.py:129 | `d.get(k, default)` is the stored value when the key is present, else the default. |

## Left out

- Process launching, `ProcessPoolExecutor` and `as_completed`. They are replaced by
  the `World` record: the outcome of each (phase, tool) pair, the exception a future
  raises, and the picks that fix the completion order.
- Console output: panels, tables, the colour of the `successful/total` line, and
  the summaries printed by `_finish_success` and `_finish_failure`. The model keeps
  the exit status, `self.results`, `self.errors` and the reported failure, on the
  assumption that printing never raises (see the `Orchestrator.Run` line).
- Orchestrator.Run, Orchestrator.Sequential and Orchestrator.Finish: console output
  is assumed not to raise, but Rich can raise while printing, and that changes the
  exit status. A tool stdout line such as `saved to [/tmp/out.json]`, printed as
  markup at template/main.py:158-160, raises `MarkupError`. `_run_sequential` does
  not catch it, so `run()` returns 1 where the model's non-critical phase never
  raises and exits 0. A non-string phase name such as `name: 1`, which validation
  accepts, makes `table.add_row` in `_finish_success` (template/main.py:220-230)
  raise `NotRenderableError` outside the `try`, so `run()` raises instead of
  returning 0. An error text containing `[/x]`, printed as markup in the warnings
  loop at template/main.py:247-249, raises in the same way.
- Orchestrator.Threshold and Orchestrator.Parallel: a float `min_success` or
  `max_workers` is a `TypeError` in the model, because floats are opaque here.
  Python compares them: with `min_success: 1.5` and 2 of 3 tools succeeding,
  `2 >= 1.5` passes, and with `max_workers: 4.5` and 2 tools,
  `min(2, 4.5) == 2` runs normally. `validate_config` rejects both values, so a
  full run never reaches these members with a float.
- Timestamps and durations (`datetime.now`), and the KeyboardInterrupt handler in
  `main`.
- YAML reading, the `_config_cache` global and `clear_cache`. The configuration is
  the already-parsed mapping.
- `load_env`/dotenv, `get_settings` and `get_workflow_config`. `load_env` fills the
  process environment from `.env` (`load_dotenv` keeps variables that are already
  set), and the modelled `Environ` is the environment after that. The other two
  only read the environment or return a section.
- The registry, repository discovery, the `new`/`deploy` commands, Modal calls and
  `generate_modal_app`. `create_modal_secret` is modelled up to the command it
  would run, without running it.
- Gmail OAuth, HTTP, `send`, attachment download and base64 decoding. Decoding is
  the opaque `decode` parameter.
- `get_messages`: fetching each listed message. Only the request parameters are
  modelled.
- `watflow/integrations/claude.py`, `watflow/integrations/__init__.py`,
  `watflow/__init__.py` and `template/tools/example_tool.py`: not part of this model.
- Floats are opaque. A float keeps its Python rendering and its sign. This covers
  float timeouts and the model temperature.
- Python's `bool` is a subclass of `int`. `_validate_phase_settings` therefore
  accepts `True` as an integer, and `1 == True` makes such phase names equal. The
  model treats booleans and integers as distinct values.
- The `retry` setting is validated but never used when running a phase.
- `str()` of a list or dict (in a message that quotes a phase name or
  `min_success`) is rendered as the empty string.
- Exception texts raised by Python itself (`TypeError`, `AttributeError` and
  similar) are written as CPython 3 words them, for the cases the model covers.
  Texts the source writes out are modelled exactly, except where they quote a list
  or a dict (see the `str()` line above).
- Text.Lower: `lower()` maps ASCII letters only, so Python's Unicode lowercasing
  (including the mappings that change a text's length) is not modelled. `strip()`
  removes Python's whitespace set, without Unicode normalisation.
- Duplicate keys inside one YAML mapping, and unhashable phase names.
- Gmail header entries without a `name` or `value` (a `KeyError` in the source).
  The model's headers always carry both.
- Config.GetPhases: Python's `dict.update` accepts a pair whose key is a number, a
  boolean, a float or null. The model's dictionaries have string keys only, so such
  a pair is an error with the model's own text. `Json.UpdateArg` and
  `Json.UpdatePair` share this limit.
- Text.ParseInt: Python's `int()` also accepts non-ASCII Unicode decimal digits,
  such as Arabic-Indic digits. The model accepts ASCII digits only, so a time part
  written with other digits falls back to 8:00 here. The digit limit is
  `sys.int_info.default_max_str_digits`, 4300; a different limit set through
  `PYTHONINTMAXSTRDIGITS` or `sys.set_int_max_str_digits` is not modelled.
- Text.IntToString: `str()` of an integer with more than 4300 digits raises
  `ValueError`, while the model renders every integer. The source only renders
  hours and minutes that `int()` produced, and those are within the limit
  (`Cli.ParseTime`).
- Environment names containing NUL: a real process environment holds none, and the
  modelled `Environ` is read as holding none either. Such a name is therefore unset,
  as it is for `os.getenv`, which returns `None` for it.
- Orchestrator.RunOutcomes: the state keeps how many phases started, not the list
  of phase configs. Phases start in list order, so the count identifies them.
- Config.GetPhaseByName: its contract is stated through `FirstNamed`, whose own
  contract gives the first-match property.
