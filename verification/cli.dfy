/** The pure string helpers of the `wat` command line (watflow/cli.py): turning a
    deployment schedule into a cron expression, reading a workflow's `.env` file
    into the arguments of `modal secret create`, and the category filter and
    description truncation of `wat list`. */
module Cli {
  import opened Wrappers
  import opened Text
  import opened Json
  import Dict
  import Seqs

  // ---------------------------------------------------------------------------
  // schedule_to_cron
  // ---------------------------------------------------------------------------

  /** A cron expression with a wildcard month: minute, hour, day of month, day of week. */
  datatype Cron = Cron(minute: int, hour: int, dayOfMonth: string, dayOfWeek: string)

  /** The five cron fields, in order. */
  function CronFields(c: Cron): seq<string> {
    [IntToString(c.minute), IntToString(c.hour), c.dayOfMonth, "*", c.dayOfWeek]
  }

  /** The cron fields separated by single spaces. */
  function CronText(c: Cron): string {
    Join(CronFields(c), " ")
  }

  /** Reads a cron text back: five space-separated fields, integer minute and hour,
      a wildcard month. */
  function ParseCron(s: string): Option<Cron> {
    var f := Split(s, ' ');
    if |f| != 5 || f[3] != "*" then None
    else
      match (ParseInt(f[0]), ParseInt(f[1]))
      case (Some(m), Some(h)) => Some(Cron(m, h, f[2], f[4]))
      case _ => None
  }

  /** A cron whose day fields hold no space reads back as itself, unless its minute
      or hour has more digits than `int()` reads. */
  lemma CronRoundTrip(c: Cron)
    requires ' ' !in c.dayOfMonth && ' ' !in c.dayOfWeek
    ensures ParseCron(CronText(c)) ==
      if FitsStrDigits(c.minute) && FitsStrDigits(c.hour) then Some(c) else None
  {
    var f := CronFields(c);
    IntToStringChars(c.minute, ' ');
    IntToStringChars(c.hour, ' ');
    assert forall i :: 0 <= i < |f| ==> ' ' !in f[i] by {
      assert f[0] == IntToString(c.minute) && f[1] == IntToString(c.hour);
      assert f[2] == c.dayOfMonth && f[3] == "*" && f[4] == c.dayOfWeek;
    }
    SplitJoin(f, ' ');
    ParseIntToString(c.minute);
    ParseIntToString(c.hour);
  }

  /** `hour, minute = time_str.split(":")` then `int()` of each; a text without
      exactly one colon, or with a part that is not an integer, falls back to 8:00.
      Hour and minute are not range-checked. */
  function ParseTime(t: string): (hm: (int, int))
    ensures multiset(t)[':'] != 1 ==> hm == (8, 0)
    ensures FitsStrDigits(hm.0) && FitsStrDigits(hm.1)
  {
    var parts := Split(t, ':');
    if |parts| != 2 then (8, 0)
    else
      match (ParseInt(parts[0]), ParseInt(parts[1]))
      case (Some(h), Some(m)) => (h, m)
      case _ => (8, 0)
  }

  /** `int()` does not skip an information separator (U+001C to U+001F) as
      whitespace, so a time with one in either part, such as `"\x1c9:30"`, falls
      back to 8:00. */
  lemma InfoSeparatorTimeFallsBack(h: string, m: string)
    requires ':' !in h && ':' !in m
    requires HasInfoSeparator(h) || HasInfoSeparator(m)
    ensures ParseTime(h + [':'] + m) == (8, 0)
  {
    ParseTimeOfParts(h, m);
  }

  /** The default `"08:00"` is itself read as 8:00. */
  lemma DefaultTimeParses()
    ensures ParseTime("08:00") == (8, 0)
  {
    PaddedTime('8', '0');
    assert "08:00" == ['0', '8'] + [':'] + ['0', '0'];
  }

  /** A time written as two zero-padded digits is read digit by digit. */
  lemma PaddedTime(h: char, m: char)
    requires IsDigit(h) && IsDigit(m)
    ensures ParseTime(['0', h] + [':'] + ['0', m]) == (DigitValue(h), DigitValue(m))
  {
    PaddedDigit(h);
    PaddedDigit(m);
    ParseTimeOfParts(['0', h], ['0', m]);
  }

  /** Two colon-free parts joined by a colon are read part by part; if either is
      not an integer the time falls back to 8:00. */
  lemma ParseTimeOfParts(a: string, b: string)
    requires ':' !in a && ':' !in b
    ensures ParseInt(a).Some? && ParseInt(b).Some? ==>
      ParseTime(a + [':'] + b) == (ParseInt(a).value, ParseInt(b).value)
    ensures ParseInt(a).None? || ParseInt(b).None? ==> ParseTime(a + [':'] + b) == (8, 0)
  {
    SplitAt(a, b, ':');
    SplitNone(b, ':');
  }

  /** A zero-padded digit such as `"08"` is read as the digit. */
  lemma PaddedDigit(d: char)
    requires IsDigit(d)
    ensures ParseInt(['0', d]) == Some(DigitValue(d))
  {
    PaddedDigitStrip(d);
    PaddedDigitValue(d);
  }

  lemma PaddedDigitStrip(d: char)
    requires IsDigit(d)
    ensures Strip(['0', d]) == ['0', d]
  {
    StripOfTrimmed(['0', d]);
  }

  lemma PaddedDigitValue(d: char)
    requires IsDigit(d)
    ensures WellGrouped(['0', d]) && GroupedValue(['0', d]) == DigitValue(d)
    ensures DigitCount(['0', d]) == 2
  {
    assert ['0', d][..1] == ['0'];
    assert ['0'][..0] == [];
  }

  /** `deployment.get("schedule_time", "08:00")` read as a time; a value that is not
      a string (no `split`) also falls back to 8:00. */
  function ScheduleTime(deployment: Fields): (hm: (int, int))
    ensures "schedule_time" !in Dict.Keys(deployment) ==> hm == (8, 0)
    ensures FitsStrDigits(hm.0) && FitsStrDigits(hm.1)
    ensures !GetOr(deployment, "schedule_time", Str("08:00")).Str? ==> hm == (8, 0)
    ensures GetOr(deployment, "schedule_time", Str("08:00")).Str? ==>
      hm == ParseTime(GetOr(deployment, "schedule_time", Str("08:00")).s)
  {
    DefaultTimeParses();
    match GetOr(deployment, "schedule_time", Str("08:00"))
    case Str(t) => ParseTime(t)
    case _ => (8, 0)
  }

  /** A time written as `"H:M"` is read back as hour `H` and minute `M`; with more
      digits than `int()` reads it falls back to 8:00. */
  lemma ParseTimeRoundTrip(h: int, m: int)
    ensures ParseTime(IntToString(h) + ":" + IntToString(m)) ==
      if FitsStrDigits(h) && FitsStrDigits(m) then (h, m) else (8, 0)
  {
    IntToStringChars(h, ':');
    IntToStringChars(m, ':');
    ParseIntToString(h);
    ParseIntToString(m);
    ParseTimeOfParts(IntToString(h), IntToString(m));
    assert IntToString(h) + ":" + IntToString(m) == IntToString(h) + [':'] + IntToString(m);
  }

  /** The day names in cron order: Sunday is 0, Saturday 6. */
  const Days: seq<string> := ["sunday", "monday", "tuesday", "wednesday", "thursday", "friday", "saturday"]

  /** `day_map.get(name, 0)`. */
  function DayNumber(name: string): (d: nat)
    ensures d < |Days|
    ensures name in Days ==> Days[d] == name
    ensures name !in Days ==> d == 0
  {
    DayFrom(name, 0)
  }

  function DayFrom(name: string, i: nat): (d: nat)
    requires i <= |Days|
    ensures d < |Days|
    ensures name in Days[i..] ==> i <= d && Days[d] == name
    ensures name !in Days[i..] ==> d == 0
    decreases |Days| - i
  {
    if i == |Days| then 0
    else if Days[i] == name then i
    else DayFrom(name, i + 1)
  }

  /** Each day name stands for its own position. */
  lemma DayNumbersDistinct(i: nat)
    requires i < |Days|
    ensures DayNumber(Days[i]) == i
  {
    assert Dict.Distinct(Days);
  }

  /** The cron a deployment section asks for: `Ok(None)` when it has no (or an
      empty) `schedule` or one of an unknown kind; an error when the section is not
      a mapping or a weekly `schedule_day` is not a string. */
  function Schedule(config: Fields): (r: Result<Option<Cron>, string>)
    ensures var d := GetOr(config, "deployment", Object([]));
      r.Err? <==> (!d.Object? || (
        && GetOr(d.fields, "schedule", Null) == Str("weekly")
        && !GetOr(d.fields, "schedule_day", Str("sunday")).Str?))
    ensures var d := GetOr(config, "deployment", Object([]));
      r.Ok? && r.value.Some? <==> (d.Object? && (
        || GetOr(d.fields, "schedule", Null) in {Str("daily"), Str("monthly")}
        || (GetOr(d.fields, "schedule", Null) == Str("weekly") && GetOr(d.fields, "schedule_day", Str("sunday")).Str?)))
    ensures r.Ok? && r.value.Some? ==>
      var d := GetOr(config, "deployment", Object([])).fields;
      var c := r.value.value;
      && (c.hour, c.minute) == ScheduleTime(d)
      && (GetOr(d, "schedule", Null) == Str("daily") ==> c.dayOfMonth == "*" && c.dayOfWeek == "*")
      && (GetOr(d, "schedule", Null) == Str("weekly") ==>
            c.dayOfMonth == "*" && c.dayOfWeek == NatToString(DayNumber(Lower(GetOr(d, "schedule_day", Str("sunday")).s))))
      && (GetOr(d, "schedule", Null) == Str("monthly") ==>
            c.dayOfMonth == PyStr(GetOr(d, "schedule_day_of_month", Int(1))) && c.dayOfWeek == "*")
  {
    match GetOr(config, "deployment", Object([]))
    case Object(d) =>
      var schedule := GetOr(d, "schedule", Null);
      if !Truthy(schedule) then Ok(None)
      else
        var (hour, minute) := ScheduleTime(d);
        if schedule == Str("daily") then Ok(Some(Cron(minute, hour, "*", "*")))
        else if schedule == Str("weekly") then
          (match GetOr(d, "schedule_day", Str("sunday"))
           case Str(day) => Ok(Some(Cron(minute, hour, "*", NatToString(DayNumber(Lower(day))))))
           case v => Err("'" + TypeName(v) + "' object has no attribute 'lower'"))
        else if schedule == Str("monthly") then
          Ok(Some(Cron(minute, hour, PyStr(GetOr(d, "schedule_day_of_month", Int(1))), "*")))
        else Ok(None)
    case v => Err("'" + TypeName(v) + "' object has no attribute 'get'")
  }

  /** `schedule_to_cron(config)`. */
  function ScheduleToCron(config: Fields): (r: Result<Option<string>, string>)
    ensures r.Err? <==> Schedule(config).Err?
    ensures r.Ok? ==> (r.value.Some? <==> Schedule(config).value.Some?)
    ensures r.Ok? && r.value.Some? ==> r.value.value == CronText(Schedule(config).value.value)
  {
    match Schedule(config)
    case Err(e) => Err(e)
    case Ok(None) => Ok(None)
    case Ok(Some(c)) => Ok(Some(CronText(c)))
  }

  /** A weekly schedule on a named day (in any letter case) runs on that day's number. */
  lemma WeeklyOnNamedDay(config: Fields, d: Fields, day: string, i: nat)
    requires i < |Days|
    requires Dict.Get(config, "deployment") == Some(Object(d))
    requires Dict.Get(d, "schedule") == Some(Str("weekly"))
    requires Dict.Get(d, "schedule_day") == Some(Str(day)) && Lower(day) == Days[i]
    ensures Schedule(config).Ok? && Schedule(config).value.Some?
    ensures Schedule(config).value.value.dayOfWeek == NatToString(i)
  {
    DayNumbersDistinct(i);
  }

  /** Every cron produced for a daily or weekly schedule (and a monthly one whose
      day of month prints without a space) reads back as the schedule asked for. */
  lemma ScheduleCronReadsBack(config: Fields)
    requires Schedule(config).Ok? && Schedule(config).value.Some?
    requires ' ' !in Schedule(config).value.value.dayOfMonth
    ensures ParseCron(ScheduleToCron(config).value.value) == Some(Schedule(config).value.value)
  {
    var c := Schedule(config).value.value;
    assert ' ' !in c.dayOfWeek by {
      if c.dayOfWeek != "*" {
        assert forall j :: 0 <= j < |c.dayOfWeek| ==> IsDigit(c.dayOfWeek[j]);
      }
    }
    CronRoundTrip(c);
  }

  // ---------------------------------------------------------------------------
  // create_modal_secret
  // ---------------------------------------------------------------------------

  /** Removes one pair of matching surrounding quotes (`value[1:-1]`). */
  function Unquote(v: string): (r: string)
    ensures |v| >= 2 && v[0] == v[|v| - 1] && v[0] in {'"', '\''} ==> r == v[1..|v| - 1]
    ensures !(v != [] && v[0] == v[|v| - 1] && v[0] in {'"', '\''}) ==> r == v
    ensures |v| == 1 && v[0] in {'"', '\''} ==> r == ""
  {
    QuoteEnds(v, '"');
    QuoteEnds(v, '\'');
    if (StartsWith(v, "\"") && EndsWith(v, "\"")) || (StartsWith(v, "'") && EndsWith(v, "'")) then
      if |v| >= 2 then v[1..|v| - 1] else ""
    else v
  }

  /** Starting and ending with a one-character text is about the end characters. */
  lemma QuoteEnds(v: string, q: char)
    ensures StartsWith(v, [q]) <==> v != [] && v[0] == q
    ensures EndsWith(v, [q]) <==> v != [] && v[|v| - 1] == q
  {
  }

  /** One line of a `.env` file: blank lines, `#` comments and lines without `=` are
      skipped; otherwise the stripped key before the first `=` and the stripped,
      unquoted value after it. */
  function EnvLine(line: string): (r: Option<(string, string)>)
    ensures r.Some? ==> '=' !in r.value.0 && Strip(r.value.0) == r.value.0
    ensures r.Some? ==>
      var t := Strip(line);
      exists i :: 0 <= i < |t| && t[i] == '=' && '=' !in t[..i] && r.value == (Strip(t[..i]), Unquote(Strip(t[i + 1..])))
  {
    var t := Strip(line);
    if t == "" || t[0] == '#' then None
    else
      match SplitFirst(t, '=')
      case None => None
      case Some((key, value)) =>
        StripIdempotent(key);
        StripKeepsOut(key, '=');
        SplitWitness(t, key, value);
        Some((Strip(key), Unquote(Strip(value))))
  }

  /** The split at the first `=` is the one after the key. */
  lemma SplitWitness(t: string, key: string, value: string)
    requires t == key + ['='] + value && '=' !in key
    ensures exists i ::
      && 0 <= i < |t| && t[i] == '=' && '=' !in t[..i]
      && (Strip(key), Unquote(Strip(value))) == (Strip(t[..i]), Unquote(Strip(t[i + 1..])))
  {
    var i := |key|;
    assert t[..i] == key && t[i + 1..] == value && t[i] == '=';
  }

  /** Exactly blank lines, comments and lines without `=` are skipped. */
  lemma EnvLineSkips(line: string)
    ensures EnvLine(line).None? <==> IsBlank(line) || Strip(line)[0] == '#' || '=' !in line
  {
    var t := Strip(line);
    assert IsBlank(line) <==> t == "";
    if t != "" {
      StripKeepsIn(line, '=');
    }
  }

  /** A `KEY="VALUE"` or `KEY='VALUE'` line reads back as the key and exactly the
      quoted value, whatever it holds. */
  lemma EnvLineQuoted(key: string, value: string, q: char)
    requires key != [] && Strip(key) == key && key[0] != '#' && '=' !in key
    requires q == '"' || q == '\''
    ensures EnvLine(key + "=" + [q] + value + [q]) == Some((key, value))
  {
    var quoted := [q] + value + [q];
    var line := key + ['='] + quoted;
    assert key + "=" + [q] + value + [q] == line;
    QuotedLineTrimmed(key, quoted);
    UnquoteQuoted(value, q);
    SplitFirstAt(key, quoted, '=');
    assert line[0] == key[0];
  }

  lemma QuotedLineTrimmed(key: string, quoted: string)
    requires key != [] && Strip(key) == key
    requires |quoted| >= 2 && !IsSpace(quoted[0]) && !IsSpace(quoted[|quoted| - 1])
    ensures Strip(key + ['='] + quoted) == key + ['='] + quoted
    ensures Strip(quoted) == quoted
  {
    var line := key + ['='] + quoted;
    assert line[0] == key[0] && line[|line| - 1] == quoted[|quoted| - 1];
    StripOfTrimmed(line);
    StripOfTrimmed(quoted);
  }

  /** Removing the quotes of a quoted text gives the text. */
  lemma UnquoteQuoted(value: string, q: char)
    requires q == '"' || q == '\''
    ensures Unquote([q] + value + [q]) == value
  {
    var quoted := [q] + value + [q];
    assert quoted[1..|quoted| - 1] == value;
  }

  /** A `KEY=VALUE` line whose value has no surrounding space and no surrounding pair
      of quotes reads back as the key and the value, `=` signs in the value included. */
  lemma EnvLineBare(key: string, value: string)
    requires key != [] && Strip(key) == key && key[0] != '#' && '=' !in key
    requires Strip(value) == value && Unquote(value) == value
    ensures EnvLine(key + "=" + value) == Some((key, value))
  {
    var line := key + ['='] + value;
    assert key + "=" + value == line;
    BareLineTrimmed(key, value);
    SplitFirstAt(key, value, '=');
    assert EnvLine(line) == Some((Strip(key), Unquote(Strip(value))));
  }

  lemma BareLineTrimmed(key: string, value: string)
    requires key != [] && Strip(key) == key && Strip(value) == value
    ensures Strip(key + ['='] + value) == key + ['='] + value
    ensures (key + ['='] + value)[0] == key[0]
  {
    var line := key + ['='] + value;
    assert line[0] == key[0];
    if value == [] {
      assert line[|line| - 1] == '=';
    } else {
      assert value[0] == Strip(value)[0];
      assert line[|line| - 1] == value[|value| - 1];
    }
    StripOfTrimmed(line);
  }

  /** The `(key, value)` pairs of the lines that are not skipped, in file order. */
  function EnvPairs(lines: seq<string>): (ps: seq<(string, string)>)
    ensures forall j :: 0 <= j < |ps| ==> '=' !in ps[j].0
    ensures |ps| <= |lines|
  {
    if lines == [] then []
    else
      var rest := EnvPairs(lines[1..]);
      var first := EnvLine(lines[0]);
      if first.None? then rest
      else
        KeysWithoutEquals(first.value, rest);
        [first.value] + rest
  }

  lemma KeysWithoutEquals(p: (string, string), rest: seq<(string, string)>)
    requires '=' !in p.0
    requires forall j :: 0 <= j < |rest| ==> '=' !in rest[j].0
    ensures forall j :: 0 <= j < |rest| + 1 ==> '=' !in ([p] + rest)[j].0
  {
  }

  /** `env_vars`: every pair assigned in file order, so a repeated key keeps its
      first position and its last value. */
  function ReadDotEnv(lines: seq<string>): (vars: Dict.Dict<string, string>)
    ensures Dict.Distinct(Dict.Keys(vars))
    ensures forall k :: Dict.Get(vars, k) == Dict.LastValue(EnvPairs(lines), k)
    ensures forall j :: 0 <= j < |vars| ==> '=' !in vars[j].0
    ensures Dict.Keys(vars) == Dict.Firsts(Dict.Keys(EnvPairs(lines)))
  {
    var vars := Dict.FromPairs(EnvPairs(lines));
    forall j | 0 <= j < |vars|
      ensures '=' !in vars[j].0
    {
      assert Dict.Keys(vars)[j] == vars[j].0;
      assert Dict.Get(vars, vars[j].0).Some?;
      var ps := EnvPairs(lines);
      var i :| 0 <= i < |ps| && Dict.Keys(ps)[i] == vars[j].0;
    }
    vars
  }

  /** A later line for the same key overrides an earlier one. */
  lemma LaterLineWins(before: seq<string>, key: string, value: string)
    requires key != [] && Strip(key) == key && key[0] != '#' && '=' !in key
    ensures Dict.Get(ReadDotEnv(before + [key + "=\"" + value + "\""]), key) == Some(value)
  {
    var lines := before + [key + "=\"" + value + "\""];
    QuotedLinePair(before, key, value);
    Dict.LastValueAppend(EnvPairs(before), key, value);
    assert Dict.Get(ReadDotEnv(lines), key) == Dict.LastValue(EnvPairs(lines), key);
  }

  /** Appending a double-quoted line appends exactly its pair. */
  lemma QuotedLinePair(before: seq<string>, key: string, value: string)
    requires key != [] && Strip(key) == key && key[0] != '#' && '=' !in key
    ensures EnvPairs(before + [key + "=\"" + value + "\""]) == EnvPairs(before) + [(key, value)]
  {
    var line := key + "=\"" + value + "\"";
    assert line == key + "=" + ['"'] + value + ['"'];
    EnvLineQuoted(key, value, '"');
    EnvPairsAppend(before, [line]);
    SingleLinePairs(line);
  }

  lemma SingleLinePairs(line: string)
    ensures EnvPairs([line]) == if EnvLine(line).Some? then [EnvLine(line).value] else []
  {
    assert [line][1..] == [];
  }

  lemma {:induction false} EnvPairsAppend(a: seq<string>, b: seq<string>)
    ensures EnvPairs(a + b) == EnvPairs(a) + EnvPairs(b)
  {
    if a == [] {
      assert a + b == b;
    } else {
      assert (a + b)[0] == a[0];
      assert (a + b)[1..] == a[1..] + b;
      EnvPairsAppend(a[1..], b);
      var first := EnvLine(a[0]);
      if first.Some? {
        Seqs.AppendAssoc([first.value], EnvPairs(a[1..]), EnvPairs(b));
      }
    }
  }

  /** `modal secret create --force <workflow>-env KEY=VALUE ...`. */
  function SecretCommand(workflowName: string, vars: Dict.Dict<string, string>): (cmd: seq<string>)
    ensures |cmd| == 5 + |vars|
    ensures cmd[..5] == ["modal", "secret", "create", "--force", workflowName + "-env"]
  {
    ["modal", "secret", "create", "--force", workflowName + "-env"]
      + seq(|vars|, j requires 0 <= j < |vars| => vars[j].0 + "=" + vars[j].1)
  }

  /** What `create_modal_secret` would run: nothing (`None`) when the workflow has
      no `.env` file or the file sets no variable. */
  function CreateModalSecret(workflowName: string, dotEnv: Option<seq<string>>): (cmd: Option<seq<string>>)
    ensures cmd.None? <==> dotEnv.None? || EnvPairs(dotEnv.value) == []
    ensures cmd.Some? ==> cmd.value == SecretCommand(workflowName, ReadDotEnv(dotEnv.value))
  {
    var vars := if dotEnv.Some? then ReadDotEnv(dotEnv.value) else [];
    assert dotEnv.Some? && EnvPairs(dotEnv.value) != [] ==> EnvPairs(dotEnv.value)[0].0 in Dict.Keys(vars);
    if vars == [] then None else Some(SecretCommand(workflowName, vars))
  }

  /** The command's `KEY=VALUE` arguments split back, at their first `=`, into
      exactly the variables read, in order. */
  lemma SecretArgsReadBack(workflowName: string, lines: seq<string>)
    ensures var vars := ReadDotEnv(lines);
      var cmd := SecretCommand(workflowName, vars);
      forall j :: 0 <= j < |vars| ==> SplitFirst(cmd[5 + j], '=') == Some(vars[j])
  {
    var vars := ReadDotEnv(lines);
    forall j | 0 <= j < |vars|
      ensures SplitFirst(SecretCommand(workflowName, vars)[5 + j], '=') == Some(vars[j])
    {
      assert SecretCommand(workflowName, vars)[5 + j] == vars[j].0 + ['='] + vars[j].1;
      SplitFirstAt(vars[j].0, vars[j].1, '=');
    }
  }

  // ---------------------------------------------------------------------------
  // list_workflows
  // ---------------------------------------------------------------------------

  predicate InCategory(w: Fields, category: string) {
    Dict.Get(w, "category") == Some(Str(category))
  }

  /** `[w for w in workflows if w.get("category") == category]` when a category is
      given (a non-empty string); every workflow otherwise. */
  function FilterCategory(workflows: seq<Fields>, category: string): (r: seq<Fields>)
    ensures |r| <= |workflows|
    ensures forall w :: w in r <==> w in workflows && (category == "" || InCategory(w, category))
    ensures category == "" ==> r == workflows
  {
    if category == "" || workflows == [] then workflows
    else
      var rest := FilterCategory(workflows[1..], category);
      assert forall w :: w in workflows <==> w == workflows[0] || w in workflows[1..];
      if InCategory(workflows[0], category) then [workflows[0]] + rest else rest
  }

  /** The filter keeps the registry order: filtering a concatenation filters each part. */
  lemma {:induction false} FilterCategoryAppend(a: seq<Fields>, b: seq<Fields>, category: string)
    ensures FilterCategory(a + b, category) == FilterCategory(a, category) + FilterCategory(b, category)
  {
    if a == [] {
      assert a + b == b;
    } else if category != "" {
      assert (a + b)[0] == a[0];
      assert (a + b)[1..] == a[1..] + b;
      FilterCategoryAppend(a[1..], b, category);
      if InCategory(a[0], category) {
        Seqs.AppendAssoc([a[0]], FilterCategory(a[1..], category), FilterCategory(b, category));
      }
    }
  }

  /** Filtering twice by the same category is filtering once. */
  lemma {:induction false} FilterCategoryIdempotent(workflows: seq<Fields>, category: string)
    ensures FilterCategory(FilterCategory(workflows, category), category) == FilterCategory(workflows, category)
  {
    if category != "" && workflows != [] {
      FilterCategoryIdempotent(workflows[1..], category);
      var rest := FilterCategory(workflows[1..], category);
      if InCategory(workflows[0], category) {
        assert ([workflows[0]] + rest)[1..] == rest;
      }
    }
  }

  /** `desc[:40] + ("..." if len(desc) > 40 else "")`. */
  function Truncate(desc: string): (r: string)
    ensures |r| <= 43
    ensures |desc| <= 40 ==> r == desc
    ensures |desc| > 40 ==> |r| == 43 && r[..40] == desc[..40] && r[40..] == "..."
  {
    if |desc| > 40 then desc[..40] + "..." else desc
  }

  /** Truncating a truncated description changes nothing. */
  lemma TruncateIdempotent(desc: string)
    ensures Truncate(Truncate(desc)) == Truncate(desc)
  {
    if |desc| > 40 {
      assert Truncate(desc)[..40] == desc[..40];
    }
  }
}
