/** Workflow-level requirement checks (watflow/validation.py): the `requirements`
    section of the config lists environment variables and files that must exist
    before a run starts. */
module Validation {
  import opened Wrappers
  import opened Text
  import opened Json
  import Dict
  import Env
  import Seqs

  datatype ValidationResult = ValidationResult(valid: bool, missingEnv: seq<string>, missingFiles: seq<string>)

  /** The `requirements` section: variable names and paths relative to the workflow directory. */
  datatype Requirements = Requirements(env: seq<string>, files: seq<string>)

  /** `config.get("requirements", {})` and what `validate_workflow` visits of its
      `env` and `files` entries (both default to empty): the items `for x in ...`
      yields, so a string contributes its characters and a mapping its keys.  A
      section that is not a mapping has no `get`; a value that is not iterable, a
      variable name that is not a string (`os.getenv`) and a path that is not a string
      (`workflow_dir / filepath`) raise. */
  function ReadRequirements(config: Fields): (r: Result<Requirements, string>)
    ensures "requirements" !in Dict.Keys(config) ==> r == Ok(Requirements([], []))
    ensures var section := GetOr(config, "requirements", Object([]));
      !section.Object? ==> r == Err("'" + TypeName(section) + "' object has no attribute 'get'")
    ensures var section := GetOr(config, "requirements", Object([]));
      section.Object? ==>
        var env := Iterate(GetOr(section.fields, "env", List([])));
        var files := Iterate(GetOr(section.fields, "files", List([])));
        && (r.Ok? <==> env.Ok? && AllStr(env.value) && files.Ok? && AllStr(files.value))
        && (r.Ok? ==> r.value == Requirements(Strs(env.value), Strs(files.value)))
        && (env.Err? ==> r == Err(env.error))
        && (env.Ok? && AllStr(env.value) && files.Err? ==> r == Err(files.error))
        && (env.Ok? && !AllStr(env.value) ==>
              r == Err("str expected, not " + TypeName(env.value[FirstNonStr(env.value, 0)])))
        && (env.Ok? && AllStr(env.value) && files.Ok? && !AllStr(files.value) ==>
              r == Err("unsupported operand type(s) for /: 'PosixPath' and '"
                       + TypeName(files.value[FirstNonStr(files.value, 0)]) + "'"))
  {
    match GetOr(config, "requirements", Object([]))
    case Object(section) =>
      var env :- Iterate(GetOr(section, "env", List([])));
      var k := FirstNonStr(env, 0);
      if k < |env| then Err("str expected, not " + TypeName(env[k]))
      else
        var files :- Iterate(GetOr(section, "files", List([])));
        var j := FirstNonStr(files, 0);
        if j < |files| then Err("unsupported operand type(s) for /: 'PosixPath' and '" + TypeName(files[j]) + "'")
        else Ok(Requirements(Strs(env), Strs(files)))
    case other => Err("'" + TypeName(other) + "' object has no attribute 'get'")
  }

  /** `for var in "AB"` checks the variables `A` and `B`: a string `env` entry
      requires each of its characters, and a section without `files` requires no
      file. */
  lemma StringEnvReadsCharacters(config: Fields, s: string)
    requires Dict.Get(config, "requirements") == Some(Object([("env", Str(s))]))
    ensures ReadRequirements(config).Ok?
    ensures ReadRequirements(config).value.env == seq(|s|, i requires 0 <= i < |s| => [s[i]])
    ensures ReadRequirements(config).value.files == []
  {
    var section: Fields := [("env", Str(s))];
    assert Dict.Keys(section)[0] == "env";
    assert "files" !in Dict.Keys(section);
  }

  /** The paths for which `fileExists` fails, in the order given. */
  function Absent(fileExists: string -> bool, paths: seq<string>): (r: seq<string>)
    ensures forall f :: f in r <==> f in paths && !fileExists(f)
    ensures |r| <= |paths|
  {
    if paths == [] then []
    else (if fileExists(paths[0]) then [] else [paths[0]]) + Absent(fileExists, paths[1..])
  }

  /** `Absent` keeps order: the absent paths of a concatenation are those of each part, in turn. */
  lemma {:induction false} AbsentAppend(fileExists: string -> bool, a: seq<string>, b: seq<string>)
    ensures Absent(fileExists, a + b) == Absent(fileExists, a) + Absent(fileExists, b)
  {
    if a == [] {
      assert a + b == b;
    } else {
      assert (a + b)[0] == a[0];
      assert (a + b)[1..] == a[1..] + b;
      AbsentAppend(fileExists, a[1..], b);
      var head := if fileExists(a[0]) then [] else [a[0]];
      Seqs.AppendAssoc(head, Absent(fileExists, a[1..]), Absent(fileExists, b));
    }
  }

  /** `validate_workflow(config, workflow_dir)`: the required variables that are unset
      or empty and the required files that do not exist under the workflow directory
      (`fileExists` answers for a path relative to it), each in config order; valid iff
      nothing is missing. */
  function ValidateWorkflow(req: Requirements, env: Env.Environ, fileExists: string -> bool): (r: ValidationResult)
    ensures r.valid <==> (forall v :: v in req.env ==> Env.IsSet(env, v)) && (forall f :: f in req.files ==> fileExists(f))
    ensures r.valid <==> r.missingEnv == [] && r.missingFiles == []
    ensures forall v :: v in r.missingEnv <==> v in req.env && !Env.IsSet(env, v)
    ensures forall f :: f in r.missingFiles <==> f in req.files && !fileExists(f)
  {
    var missingEnv := Env.Unset(env, req.env);
    var missingFiles := Absent(fileExists, req.files);
    assert missingEnv != [] ==> missingEnv[0] in missingEnv;
    assert missingFiles != [] ==> missingFiles[0] in missingFiles;
    ValidationResult(missingEnv == [] && missingFiles == [], missingEnv, missingFiles)
  }

  /** A config without a `requirements` section always validates. */
  lemma NoRequirementsIsValid(config: Fields, env: Env.Environ, fileExists: string -> bool)
    requires "requirements" !in Dict.Keys(config)
    ensures ReadRequirements(config).Ok?
    ensures ValidateWorkflow(ReadRequirements(config).value, env, fileExists) == ValidationResult(true, [], [])
  {
  }

  function Bullets(names: seq<string>): (lines: seq<string>)
    ensures |lines| == |names|
    ensures forall i :: 0 <= i < |names| ==> lines[i] == "  - " + names[i]
  {
    seq(|names|, i requires 0 <= i < |names| => "  - " + names[i])
  }

  /** The lines `format_validation_error` joins: the variables section (heading, one
      bullet per variable, advice) before the files section (heading, one bullet per
      file); an empty list contributes no section. */
  function ErrorLines(r: ValidationResult): (lines: seq<string>)
    ensures var envPart := if r.missingEnv == [] then 0 else |r.missingEnv| + 2;
      |lines| == envPart + (if r.missingFiles == [] then 0 else |r.missingFiles| + 1)
    ensures r.missingEnv != [] ==>
      && lines[0] == "Missing environment variables:"
      && (forall i :: 0 <= i < |r.missingEnv| ==> lines[1 + i] == "  - " + r.missingEnv[i])
      && lines[|r.missingEnv| + 1] == "\nAdd these to your .env file\n"
    ensures r.missingFiles != [] ==>
      var base := if r.missingEnv == [] then 0 else |r.missingEnv| + 2;
      && lines[base] == "Missing required files:"
      && (forall i :: 0 <= i < |r.missingFiles| ==> lines[base + 1 + i] == "  - " + r.missingFiles[i])
  {
    var envSection :=
      if r.missingEnv == [] then []
      else ["Missing environment variables:"] + Bullets(r.missingEnv) + ["\nAdd these to your .env file\n"];
    var fileSection :=
      if r.missingFiles == [] then []
      else ["Missing required files:"] + Bullets(r.missingFiles);
    envSection + fileSection
  }

  /** `format_validation_error(result)`: empty exactly when nothing is missing. */
  function FormatValidationError(r: ValidationResult): (msg: string)
    ensures msg == "" <==> r.missingEnv == [] && r.missingFiles == []
  {
    var lines := ErrorLines(r);
    JoinNonEmpty(lines, "\n");
    Join(lines, "\n")
  }

  /** Joining lines the first of which is non-empty gives a non-empty text. */
  lemma JoinNonEmpty(lines: seq<string>, sep: string)
    ensures lines != [] && lines[0] != "" ==> Join(lines, sep) != ""
  {
    if lines != [] && |lines| > 1 {
      assert |Join(lines, sep)| >= |lines[0]|;
    }
  }
}
