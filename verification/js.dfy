/** The loosely typed values YAML front matter and data files produce, with
    JavaScript's truthiness and `String(v)` conversion. */
module Js {
  import opened Text

  /** A parsed YAML value. Arrays hold strings, as the records' declared types
      say; any other object is `Obj`. Numbers are integers. */
  datatype Value =
    | Undefined
    | Null
    | Bool(b: bool)
    | Num(n: int)
    | Str(s: string)
    | Arr(items: seq<string>)
    | Obj

  /** A parsed mapping; an absent key reads as `undefined`. */
  type Record = map<string, Value>

  /** `r[key]` on an object with own properties only. */
  function Get(r: Record, key: string): (v: Value)
    ensures key !in r ==> v == Undefined
  {
    if key in r then r[key] else Undefined
  }

  /** `!!v`: arrays and objects are truthy even when empty. */
  predicate Truthy(v: Value) {
    match v
    case Undefined => false
    case Null => false
    case Bool(b) => b
    case Num(n) => n != 0
    case Str(s) => s != ""
    case Arr(_) => true
    case Obj => true
  }

  /** `v || fallback`. */
  function Or(v: Value, fallback: Value): (r: Value)
    ensures Truthy(v) ==> r == v
    ensures !Truthy(v) ==> r == fallback
  {
    if Truthy(v) then v else fallback
  }

  /** `String(v)`, as used by template literals and property keys. */
  function Display(v: Value): string {
    match v
    case Undefined => "undefined"
    case Null => "null"
    case Bool(b) => if b then "true" else "false"
    case Num(n) => IntToString(n)
    case Str(s) => s
    case Arr(items) => Join(items, ",")
    case Obj => "[object Object]"
  }

  /** The required-field test `!v || typeof v !== 'string' || v.trim() === ''`. */
  predicate MissingOrBlank(v: Value) {
    !Truthy(v) || !v.Str? || Trim(v.s) == ""
  }

  /** A string with a non-white-space character. */
  predicate Filled(v: Value) {
    v.Str? && !IsBlank(v.s)
  }

  /** A field passes the required-field test exactly when it is `Filled`. */
  lemma MissingOrBlankIff(v: Value)
    ensures MissingOrBlank(v) <==> !Filled(v)
  {
    if v.Str? {
      TrimEmptyIffBlank(v.s);
    }
  }
}
