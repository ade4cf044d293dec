/** Environment-variable checks (watflow/env.py).  The process environment is a
    map from names to values; a `.env.example` file is its list of lines, absent
    when the file does not exist. */
module Env {
  import opened Wrappers
  import opened Text
  import Dict
  import Seqs

  type Environ = map<string, string>

  /** `bool(os.getenv(name))`: the variable is set to a non-empty value. */
  predicate IsSet(env: Environ, name: string) {
    name in env && env[name] != ""
  }

  /** The names that are unset or empty, in the order given. */
  function Unset(env: Environ, names: seq<string>): (r: seq<string>)
    ensures forall v :: v in r <==> v in names && !IsSet(env, v)
    ensures |r| <= |names|
  {
    if names == [] then []
    else (if IsSet(env, names[0]) then [] else [names[0]]) + Unset(env, names[1..])
  }

  /** `Unset` keeps order: the unset names of a concatenation are those of each part, in turn. */
  lemma {:induction false} UnsetAppend(env: Environ, a: seq<string>, b: seq<string>)
    ensures Unset(env, a + b) == Unset(env, a) + Unset(env, b)
  {
    if a != [] {
      assert (a + b)[0] == a[0];
      assert (a + b)[1..] == a[1..] + b;
      UnsetAppend(env, a[1..], b);
      var head := if IsSet(env, a[0]) then [] else [a[0]];
      assert Unset(env, a + b) == head + Unset(env, a[1..] + b);
      assert Unset(env, a) == head + Unset(env, a[1..]);
      Seqs.AppendAssoc(head, Unset(env, a[1..]), Unset(env, b));
    } else {
      assert a + b == b;
    }
  }

  /** The `(name, is_set)` assignments `check_env` performs, in order. */
  function StatusPairs(env: Environ, names: seq<string>): (ps: seq<(string, bool)>)
    ensures |ps| == |names|
    ensures forall i :: 0 <= i < |names| ==> ps[i] == (names[i], IsSet(env, names[i]))
  {
    seq(|names|, i requires 0 <= i < |names| => (names[i], IsSet(env, names[i])))
  }

  lemma {:induction false} StatusPairsLast(env: Environ, names: seq<string>, v: string)
    ensures Dict.LastValue(StatusPairs(env, names), v) == if v in names then Some(IsSet(env, v)) else None
  {
    if names != [] {
      assert StatusPairs(env, names)[1..] == StatusPairs(env, names[1..]);
      StatusPairsLast(env, names[1..], v);
    }
  }

  function MissingMessage(missing: seq<string>): string {
    "Missing required environment variables: " + Join(missing, ", ") + "\nPlease set them in your .env file."
  }

  /** `check_env(required, optional, raise_on_missing)`: one entry per listed name,
      true iff the variable is set and non-empty; raises iff some required name is
      unset and `raise_on_missing` holds. */
  function CheckEnv(env: Environ, required: seq<string>, optional: seq<string>, raiseOnMissing: bool)
    : (r: Result<Dict.Dict<string, bool>, string>)
    ensures r.Err? <==> raiseOnMissing && exists v :: v in required && !IsSet(env, v)
    ensures r.Err? ==> r.error == MissingMessage(Unset(env, required))
    ensures r.Ok? ==> forall v :: Dict.Get(r.value, v) == if v in required || v in optional then Some(IsSet(env, v)) else None
    ensures r.Ok? ==> Dict.Distinct(Dict.Keys(r.value))
  {
    var missing := Unset(env, required);
    if missing != [] && raiseOnMissing then
      assert missing[0] in missing;
      Err(MissingMessage(missing))
    else
      var status := Dict.Update(Dict.Update([], StatusPairs(env, required)), StatusPairs(env, optional));
      assert forall v :: Dict.Get(status, v) == if v in required || v in optional then Some(IsSet(env, v)) else None by {
        forall v
          ensures Dict.Get(status, v) == if v in required || v in optional then Some(IsSet(env, v)) else None
        {
          StatusPairsLast(env, required, v);
          StatusPairsLast(env, optional, v);
        }
      }
      Ok(status)
  }

  /** `get_env(name, default, required)`: the environment's value (even when empty),
      else the default; raises only when both are missing and `required` holds. */
  function GetEnv(env: Environ, name: string, default: Option<string>, required: bool)
    : (r: Result<Option<string>, string>)
    ensures name in env ==> r == Ok(Some(env[name]))
    ensures name !in env ==> (r.Err? <==> default.None? && required)
    ensures name !in env && r.Ok? ==> r.value == default
  {
    var value := if name in env then Some(env[name]) else default;
    if value.None? && required then Err("Required environment variable not set: " + name)
    else Ok(value)
  }

  /** How `parse_env_example` treats one line of `.env.example`. */
  datatype ExampleLine = Skipped | RequiredVar(name: string) | OptionalVar(name: string)

  /** One line of `.env.example`, as `parse_env_example` reads it. Blank lines,
      comments and lines without `=` are skipped; otherwise the variable is the
      stripped text before the first `=`, and it is required iff the lowered line
      mentions `required` anywhere (the `# required` marker is one such mention). */
  function ClassifyExampleLine(line: string): (k: ExampleLine)
    ensures k.Skipped? <==> (var t := Strip(line); t == [] || t[0] == '#' || '=' !in t)
    ensures !k.Skipped? ==> SplitFirst(Strip(line), '=').Some?
                            && k.name == Strip(SplitFirst(Strip(line), '=').value.0)
    ensures k.RequiredVar? <==> !k.Skipped? && Contains(Lower(Strip(line)), "required")
  {
    var t := Strip(line);
    if t == [] || t[0] == '#' then Skipped
    else
      var lowered := Lower(t);
      var isRequired := Contains(lowered, "# required") || Contains(lowered, "required");
      RequiredMarker(lowered);
      if '=' in t then
        SplitHeadIsFirst(t, '=');
        var name := Strip(Split(t, '=')[0]);
        if isRequired then RequiredVar(name) else OptionalVar(name)
      else Skipped
  }

  /** The `# required` marker contains `required`, so the first test adds nothing. */
  lemma RequiredMarker(lowered: string)
    ensures Contains(lowered, "# required") ==> Contains(lowered, "required")
  {
    if Contains(lowered, "# required") {
      assert "# required" == "# " + "required";
      ContainsSuffix(lowered, "# ", "required");
    }
  }

  /** `s.split(c)[0]` is the text before the first `c`. */
  lemma SplitHeadIsFirst(s: string, c: char)
    requires c in s
    ensures Split(s, c)[0] == SplitFirst(s, c).value.0
  {
  }

  datatype EnvExample = EnvExample(required: seq<string>, optional: seq<string>)

  /** The variables declared by a run of classified lines, in file order. */
  function Declared(kinds: seq<ExampleLine>): (r: EnvExample)
    ensures |r.required| + |r.optional| <= |kinds|
  {
    if kinds == [] then EnvExample([], [])
    else
      var rest := Declared(kinds[1..]);
      match kinds[0]
      case Skipped => rest
      case RequiredVar(v) => EnvExample([v] + rest.required, rest.optional)
      case OptionalVar(v) => EnvExample(rest.required, [v] + rest.optional)
  }

  /** A variable is listed as required (optional) exactly when some line declares it so. */
  lemma {:induction false} DeclaredMembers(kinds: seq<ExampleLine>, v: string)
    ensures v in Declared(kinds).required <==> RequiredVar(v) in kinds
    ensures v in Declared(kinds).optional <==> OptionalVar(v) in kinds
  {
    if kinds != [] {
      DeclaredMembers(kinds[1..], v);
      assert kinds == [kinds[0]] + kinds[1..];
    }
  }

  /** File order is kept: the variables of two consecutive runs of lines are those of
      the first run followed by those of the second. */
  lemma {:induction false} DeclaredAppend(a: seq<ExampleLine>, b: seq<ExampleLine>)
    ensures Declared(a + b).required == Declared(a).required + Declared(b).required
    ensures Declared(a + b).optional == Declared(a).optional + Declared(b).optional
  {
    if a == [] {
      assert a + b == b;
    } else {
      assert (a + b)[0] == a[0];
      assert (a + b)[1..] == a[1..] + b;
      DeclaredAppend(a[1..], b);
      var ra := Declared(a[1..]);
      var rb := Declared(b);
      match a[0]
      case Skipped =>
      case RequiredVar(v) => Seqs.AppendAssoc([v], ra.required, rb.required);
      case OptionalVar(v) => Seqs.AppendAssoc([v], ra.optional, rb.optional);
    }
  }

  function ClassifyLines(lines: seq<string>): (kinds: seq<ExampleLine>)
    ensures |kinds| == |lines|
    ensures forall i :: 0 <= i < |lines| ==> kinds[i] == ClassifyExampleLine(lines[i])
  {
    seq(|lines|, i requires 0 <= i < |lines| => ClassifyExampleLine(lines[i]))
  }

  /** `parse_env_example(path)`: an absent file declares no variables. */
  function ParseEnvExample(file: Option<seq<string>>): (r: EnvExample)
    ensures file.None? ==> r == EnvExample([], [])
    ensures file.Some? ==> |r.required| + |r.optional| <= |file.value|
    ensures file.Some? ==> r == Declared(ClassifyLines(file.value))
  {
    match file
    case None => EnvExample([], [])
    case Some(lines) => Declared(ClassifyLines(lines))
  }

  /** `validate_env_from_example`: `check_env` on the variables the example declares. */
  function ValidateEnvFromExample(env: Environ, file: Option<seq<string>>, raiseOnMissing: bool)
    : (r: Result<Dict.Dict<string, bool>, string>)
    ensures file.None? ==> r == Ok([])
    ensures r.Err? <==> raiseOnMissing && exists v :: v in ParseEnvExample(file).required && !IsSet(env, v)
  {
    var declared := ParseEnvExample(file);
    var r := CheckEnv(env, declared.required, declared.optional, raiseOnMissing);
    assert file.None? ==> r == Ok([]) by {
      if file.None? {
        assert r.Ok?;
        assert forall v :: Dict.Get(r.value, v) == None;
        Dict.NonEmptyHasKey(r.value);
      }
    }
    r
  }
}
