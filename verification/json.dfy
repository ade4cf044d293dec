/** The configuration values the workflow engine reads from `config.yaml`,
    `.watflow/registry`-style records and Gmail API responses: a JSON-like value
    with Python's truthiness and `str()` rendering. */
module Json {
  import opened Wrappers
  import opened Text
  import Dict

  /** A parsed YAML/JSON value.  Objects keep insertion order (Python dicts).
      A float is opaque: `repr` is its Python rendering and `sign` says how it
      compares with zero (`sign > 0` means `not (x <= 0)`, which includes NaN). */
  datatype Value =
    | Null
    | Bool(b: bool)
    | Int(i: int)
    | Float(repr: string, sign: int)
    | Str(s: string)
    | List(items: seq<Value>)
    | Object(fields: Dict.Dict<string, Value>)

  type Fields = Dict.Dict<string, Value>

  /** `bool(v)`: Python truthiness. */
  predicate Truthy(v: Value) {
    match v
    case Null => false
    case Bool(b) => b
    case Int(i) => i != 0
    case Float(_, sign) => sign != 0
    case Str(s) => s != ""
    case List(items) => items != []
    case Object(fields) => fields != []
  }

  /** `d.get(key, default)`. */
  function GetOr(d: Fields, key: string, default: Value): (r: Value)
    ensures key !in Dict.Keys(d) ==> r == default
    ensures key in Dict.Keys(d) ==> Dict.Get(d, key) == Some(r)
  {
    Dict.Get(d, key).GetOr(default)
  }

  /** `str(v)` for a scalar: `None`, `True`/`False`, the decimal integer, the
      float's own rendering or the string itself.  Lists and dicts are rendered as
      the empty string (Python's `repr` of containers is not part of this model). */
  function PyStr(v: Value): string {
    match v
    case Null => "None"
    case Bool(b) => if b then "True" else "False"
    case Int(i) => IntToString(i)
    case Float(repr, _) => repr
    case Str(s) => s
    case List(_) => ""
    case Object(_) => ""
  }

  /** Python's `type(v).__name__`. */
  function TypeName(v: Value): string {
    match v
    case Null => "NoneType"
    case Bool(_) => "bool"
    case Int(_) => "int"
    case Float(_, _) => "float"
    case Str(_) => "str"
    case List(_) => "list"
    case Object(_) => "dict"
  }

  /** The strings of a list in which every element is a string. */
  predicate AllStr(vs: seq<Value>) {
    forall i :: 0 <= i < |vs| ==> vs[i].Str?
  }

  function Strs(vs: seq<Value>): (r: seq<string>)
    requires AllStr(vs)
    ensures |r| == |vs|
    ensures forall i :: 0 <= i < |vs| ==> r[i] == vs[i].s
  {
    seq(|vs|, i requires 0 <= i < |vs| => vs[i].s)
  }

  /** A list of strings as a value. */
  function StrList(ss: seq<string>): (v: Value)
    ensures v.List? && AllStr(v.items) && Strs(v.items) == ss
  {
    List(seq(|ss|, i requires 0 <= i < |ss| => Str(ss[i])))
  }

  /** The first index from `i` on holding something other than a string, or `|vs|`. */
  function FirstNonStr(vs: seq<Value>, i: nat): (k: nat)
    requires i <= |vs|
    ensures i <= k <= |vs|
    ensures forall j :: i <= j < k ==> vs[j].Str?
    ensures k < |vs| ==> !vs[k].Str?
    decreases |vs| - i
  {
    if i == |vs| || !vs[i].Str? then i else FirstNonStr(vs, i + 1)
  }

  /** The items `for x in v` visits, in order: a list's items, a string's characters
      (each a one-character string), a dict's keys; any other value raises
      `TypeError: 'T' object is not iterable`. */
  function Iterate(v: Value): (r: Result<seq<Value>, string>)
    ensures r.Err? <==> !(v.List? || v.Str? || v.Object?)
    ensures r.Err? ==> r.error == "'" + TypeName(v) + "' object is not iterable"
    ensures v.List? ==> r == Ok(v.items)
    ensures v.Str? ==> r.Ok? && |r.value| == |v.s| && forall k :: 0 <= k < |v.s| ==> r.value[k] == Str([v.s[k]])
    ensures v.Object? ==>
      r.Ok? && |r.value| == |v.fields| && forall k :: 0 <= k < |v.fields| ==> r.value[k] == Str(Dict.Keys(v.fields)[k])
  {
    match v
    case List(items) => Ok(items)
    case Str(s) => Ok(seq(|s|, k requires 0 <= k < |s| => Str([s[k]])))
    case Object(fields) => Ok(seq(|fields|, k requires 0 <= k < |fields| => Str(fields[k].0)))
    case _ => Err("'" + TypeName(v) + "' object is not iterable")
  }

  /** What `dict.update(v)` assigns, in order: a dict's entries; otherwise the items of
      an iterable, each of which must itself iterate to exactly a key and a value.  A
      key that is not a string has no place in `Fields` and is an error here. */
  function UpdateArg(v: Value): (r: Result<Fields, string>)
    ensures v.Object? ==> r == Ok(v.fields)
    ensures r.Err? && !v.Object? && Iterate(v).Err? ==> r.error == Iterate(v).error
    ensures !v.Object? && Iterate(v).Ok? ==>
      var items := Iterate(v).value;
      && (r.Ok? <==> forall i :: 0 <= i < |items| ==> UpdatePair(items[i], i).Ok?)
      && (r.Ok? ==> |r.value| == |items| && forall i :: 0 <= i < |items| ==> r.value[i] == UpdatePair(items[i], i).value)
      && (r.Err? ==> exists i :: 0 <= i < |items| && UpdatePair(items[i], i).Err? && r.error == UpdatePair(items[i], i).error
                       && forall j :: 0 <= j < i ==> UpdatePair(items[j], j).Ok?)
    ensures v == Str("") ==> r == Ok([])
  {
    if v.Object? then Ok(v.fields)
    else
      match Iterate(v)
      case Err(e) => Err(e)
      case Ok(items) =>
        var rs := PairResults(items);
        AllOkIff(rs);
        AllOkValues(rs);
        AllOkFirstError(rs);
        AllOk(rs)
  }

  /** The values of a run of results, in order, or the first error among them. */
  function AllOk<T>(rs: seq<Result<T, string>>): Result<seq<T>, string> {
    if rs == [] then Ok([])
    else
      var x :- rs[0];
      var rest :- AllOk(rs[1..]);
      Ok([x] + rest)
  }

  /** `dict.update([[k, v]])` reads the one pair as the entry `k: v`. */
  lemma OnePairUpdate(k: string, v: Value)
    ensures UpdateArg(List([List([Str(k), v])])) == Ok([(k, v)])
  {
    var pair := List([Str(k), v]);
    assert Iterate(List([pair])) == Ok([pair]);
    assert UpdatePair(pair, 0) == Ok((k, v));
    var r := UpdateArg(List([pair]));
    assert r.Ok? && |r.value| == 1 && r.value[0] == (k, v);
    assert r.value == [(k, v)];
  }

  /** A run of results succeeds iff each one does. */
  lemma {:induction false} AllOkIff<T>(rs: seq<Result<T, string>>)
    ensures AllOk(rs).Ok? <==> forall j :: 0 <= j < |rs| ==> rs[j].Ok?
  {
    if rs != [] {
      AllOkIff(rs[1..]);
      assert forall j :: 1 <= j < |rs| ==> rs[j] == rs[1..][j - 1];
    }
  }

  /** On success the values are the results' values, one each, in order. */
  lemma {:induction false} AllOkValues<T>(rs: seq<Result<T, string>>)
    ensures AllOk(rs).Ok? ==> |AllOk(rs).value| == |rs| && forall j :: 0 <= j < |rs| ==> rs[j].Ok? && AllOk(rs).value[j] == rs[j].value
  {
    if rs != [] && AllOk(rs).Ok? {
      AllOkValues(rs[1..]);
      assert forall j :: 1 <= j < |rs| ==> rs[j] == rs[1..][j - 1];
    }
  }

  /** A failure is the error of the first failing result. */
  lemma {:induction false} AllOkFirstError<T>(rs: seq<Result<T, string>>)
    ensures AllOk(rs).Err? ==>
      exists j :: 0 <= j < |rs| && rs[j].Err? && AllOk(rs).error == rs[j].error && forall j' :: 0 <= j' < j ==> rs[j'].Ok?
  {
    if rs != [] && AllOk(rs).Err? && rs[0].Ok? {
      AllOkFirstError(rs[1..]);
      var j :| 0 <= j < |rs[1..]| && rs[1..][j].Err? && AllOk(rs[1..]).error == rs[1..][j].error
               && forall j' :: 0 <= j' < j ==> rs[1..][j'].Ok?;
      assert forall j' :: 1 <= j' < j + 1 ==> rs[j'] == rs[1..][j' - 1];
      assert rs[j + 1] == rs[1..][j];
    }
  }

  /** The results of reading each element of `items` as a pair, element `j` numbered `j`. */
  function PairResults(items: seq<Value>): (rs: seq<Result<(string, Value), string>>)
    ensures |rs| == |items| && forall j :: 0 <= j < |items| ==> rs[j] == UpdatePair(items[j], j)
  {
    seq(|items|, j requires 0 <= j < |items| => UpdatePair(items[j], j))
  }

  /** Element `#i` of a `dict.update` sequence as a key and a value: it must iterate
      to exactly two items, the first a (hashable) string key. */
  function UpdatePair(item: Value, i: nat): (r: Result<(string, Value), string>)
    ensures r.Ok? <==> Iterate(item).Ok? && |Iterate(item).value| == 2 && Iterate(item).value[0].Str?
    ensures r.Ok? ==> r.value == (Iterate(item).value[0].s, Iterate(item).value[1])
    ensures Iterate(item).Err? ==>
      r == Err("cannot convert dictionary update sequence element #" + NatToString(i) + " to a sequence")
    ensures Iterate(item).Ok? && |Iterate(item).value| != 2 ==>
      r == Err("dictionary update sequence element #" + NatToString(i) + " has length "
               + NatToString(|Iterate(item).value|) + "; 2 is required")
  {
    match Iterate(item)
    case Err(_) => Err("cannot convert dictionary update sequence element #" + NatToString(i) + " to a sequence")
    case Ok(kv) =>
      if |kv| != 2 then
        Err("dictionary update sequence element #" + NatToString(i) + " has length " + NatToString(|kv|) + "; 2 is required")
      else if kv[0].List? || kv[0].Object? then Err("unhashable type: '" + TypeName(kv[0]) + "'")
      else if !kv[0].Str? then Err("a key that is not a string")
      else Ok((kv[0].s, kv[1]))
  }
}
