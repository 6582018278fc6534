/** Parsed JSON values as both the browser (`JSON.parse`) and Python (`json`)
    hand them to the application. Numbers are exact reals. */
module Json {
  import opened Wrappers
  import Text
  import Money

  datatype Json =
    | JNull
    | JBool(b: bool)
    | JNum(n: real)
    | JStr(s: string)
    | JArr(elems: seq<Json>)
    | JObj(fields: map<string, Json>)

  /** Python truthiness of a decoded value: `None`, `False`, `0`, `""`, `[]` and `{}` are false. */
  predicate Truthy(j: Json) {
    match j
    case JNull => false
    case JBool(b) => b
    case JNum(n) => n != 0.0
    case JStr(s) => s != ""
    case JArr(e) => e != []
    case JObj(f) => f != map[]
  }

  /** Python's `d.get(key)` on a decoded object: a missing key reads as `None`. */
  function Get(fields: map<string, Json>, key: string): (v: Json)
    ensures key !in fields ==> v == JNull
  {
    if key in fields then fields[key] else JNull
  }

  /** Python's `a or b`: the first operand when it is truthy, else the second. */
  function Or(a: Json, b: Json): (r: Json)
    ensures Truthy(r) <==> Truthy(a) || Truthy(b)
    ensures Truthy(a) ==> r == a
  {
    if Truthy(a) then a else b
  }

  predicate IsWhole(n: real) {
    n.Floor as real == n
  }

  /** Reads an integral number field; `None` for any other value. */
  function AsInt(j: Json): (r: Option<int>)
    ensures r.Some? <==> j.JNum? && IsWhole(j.n)
    ensures r.Some? ==> j == JNum(r.value as real)
  {
    if j.JNum? && IsWhole(j.n) then Some(j.n.Floor) else None
  }

  function AsString(j: Json): (r: Option<string>)
    ensures r.Some? <==> j.JStr?
  {
    if j.JStr? then Some(j.s) else None
  }

  /** Python's `int(v)` on a decoded value: text is read as a signed ASCII decimal integer
      after stripping white space, numbers are truncated toward zero, booleans count as 0
      and 1; `None` where the conversion raises (`None`, lists, dicts, other text).
      Underscore-grouped and non-ASCII digits are not read. */
  function PyInt(j: Json): (r: Option<int>)
    ensures j.JStr? ==> r == Text.ParseInt(Text.Trim(j.s))
    ensures j.JNum? && IsWhole(j.n) ==> r == Some(j.n.Floor)
    ensures (j.JNull? || j.JArr? || j.JObj?) ==> r.None?
  {
    match j
    case JStr(s) => Text.ParseInt(Text.Trim(s))
    case JNum(n) => Some(Money.Trunc(n))
    case JBool(b) => Some(if b then 1 else 0)
    case _ => None
  }

  /** Python's `str(v)` on a decoded value. A whole number is taken to have been written
      as an integer literal; other numbers, lists and dicts are rendered by `other`. */
  function PyStr(j: Json, other: Json -> string): (r: string)
    ensures j.JStr? ==> r == j.s
    ensures j.JNum? && IsWhole(j.n) ==> r == Text.IntToString(j.n.Floor)
  {
    match j
    case JStr(s) => s
    case JBool(b) => if b then "True" else "False"
    case JNull => "None"
    case JNum(n) => if IsWhole(n) then Text.IntToString(n.Floor) else other(j)
    case _ => other(j)
  }
}
