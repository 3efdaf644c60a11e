/** The shapes of data the text renderer receives: Python scalars, lists,
    dicts (fields in insertion order) and attribute-bearing model objects,
    with the three textual forms the renderer uses: `str()`, `repr()` and
    `json.dumps(..., default=str)`. */
module Values {
  import opened Results
  import opened Strings
  import Decimal

  datatype Value =
    | Null
    | Bool(b: bool)
    | Int(i: int)
    | Str(s: string)
    | List(items: seq<Value>)
    | Dict(fields: seq<Field>)
      /** An object with a `__dict__`; `text` is what Python's default `str()` prints for it. */
    | Object(attrs: seq<Field>, text: string)

  datatype Field = Field(key: string, value: Value)

  /** Python's truth value of the data. */
  predicate Truthy(v: Value) {
    match v
    case Null => false
    case Bool(b) => b
    case Int(i) => i != 0
    case Str(s) => s != ""
    case List(items) => items != []
    case Dict(fields) => fields != []
    case Object(_, _) => true
  }

  /** `str(v)`: a string is itself and containers are bracketed, showing their
      elements with `repr`; integers are covered by `IntTextRoundTrip`. */
  function PyStr(v: Value): (r: string)
    ensures v.Str? ==> r == v.s
    ensures v.Null? ==> r == "None"
    ensures v.List? ==> |r| >= 2 && r[0] == '[' && r[|r| - 1] == ']'
    ensures v.Dict? ==> |r| >= 2 && r[0] == '{' && r[|r| - 1] == '}'
    decreases v, 1
  {
    match v
    case Null => "None"
    case Bool(b) => if b then "True" else "False"
    case Int(i) => Decimal.IntToString(i)
    case Str(s) => s
    case List(items) =>
      "[" + Join(", ", seq(|items|, k requires 0 <= k < |items| => PyRepr(items[k]))) + "]"
    case Dict(fields) =>
      "{" + Join(", ", seq(|fields|, k requires 0 <= k < |fields| =>
                         "'" + fields[k].key + "': " + PyRepr(fields[k].value))) + "}"
    case Object(_, text) => text
  }

  /** `repr(v)`: a string in single quotes, everything else as `str`. */
  function PyRepr(v: Value): (r: string)
    ensures v.Str? ==> |r| == |v.s| + 2 && r[0] == '\'' && r[|r| - 1] == '\'' && r[1..|r| - 1] == v.s
    decreases v, 2
  {
    if v.Str? then "'" + v.s + "'" else PyStr(v)
  }

  /** `json.dumps(v, default=str)` with its default separators: strings and
      objects in double quotes, `null`, `true` and `false` for the constants,
      and bracketed containers; integers are covered by `IntTextRoundTrip`. */
  function JsonDumps(v: Value): (r: string)
    ensures v.Str? ==> |r| == |v.s| + 2 && r[0] == '"' && r[|r| - 1] == '"' && r[1..|r| - 1] == v.s
    ensures v.Object? ==> |r| == |v.text| + 2 && r[0] == '"' && r[|r| - 1] == '"' && r[1..|r| - 1] == v.text
    ensures v.Null? ==> r == "null"
    ensures v.Bool? ==> r == if v.b then "true" else "false"
    ensures v.List? ==> |r| >= 2 && r[0] == '[' && r[|r| - 1] == ']'
    ensures v.Dict? ==> |r| >= 2 && r[0] == '{' && r[|r| - 1] == '}'
    decreases v
  {
    match v
    case Null => "null"
    case Bool(b) => if b then "true" else "false"
    case Int(i) => Decimal.IntToString(i)
    case Str(s) => "\"" + s + "\""
    case List(items) =>
      "[" + Join(", ", seq(|items|, k requires 0 <= k < |items| => JsonDumps(items[k]))) + "]"
    case Dict(fields) =>
      "{" + Join(", ", seq(|fields|, k requires 0 <= k < |fields| =>
                         "\"" + fields[k].key + "\": " + JsonDumps(fields[k].value))) + "}"
    case Object(_, text) => "\"" + text + "\""
  }

  /** The text shown for a value: dicts and lists as JSON, everything else by `str`. */
  function ValueText(v: Value): (r: string)
    ensures v.Str? ==> r == v.s
    ensures v.Null? ==> r == "None"
    ensures v.Bool? ==> r == if v.b then "True" else "False"
    ensures v.List? ==> |r| >= 2 && r[0] == '[' && r[|r| - 1] == ']'
    ensures v.Dict? ==> |r| >= 2 && r[0] == '{' && r[|r| - 1] == '}'
    ensures forall s :: v == List([Str(s)]) ==> r == "[\"" + s + "\"]"
  {
    if v.Dict? || v.List? then JsonDumps(v) else PyStr(v)
  }

  /** Every rendering of an integer is a text `int()` reads back as that integer. */
  lemma IntTextRoundTrip(i: int)
    ensures Decimal.ParseInt(PyStr(Int(i))) == Some(i)
    ensures Decimal.ParseInt(JsonDumps(Int(i))) == Some(i)
    ensures Decimal.ParseInt(ValueText(Int(i))) == Some(i)
  {
    Decimal.ParseIntRoundTrip(i);
  }
}
