/** A JSON document as `json.load` returns it, and the few Python
    operations the scripts apply to such values: truthiness, `a or b`,
    `dict.get`, `key in x`, `isinstance` and `str(x)`. */
module PyJson {
  import opened Common
  import opened PyStrings

  /** A parsed JSON value. A float is kept as the text Python's `str()`
      gives it; an object is its members in document order. */
  datatype Value =
    | Null
    | Bool(b: bool)
    | Int(i: int)
    | Float(text: string)
    | Str(s: string)
    | List(items: seq<Value>)
    | Dict(members: seq<(string, Value)>)

  /** Python truthiness: `None`, `False`, zero and empty containers are falsy. */
  predicate Truthy(v: Value) {
    match v
    case Null => false
    case Bool(b) => b
    case Int(i) => i != 0
    case Float(t) => t != "0.0" && t != "-0.0"
    case Str(s) => s != ""
    case List(items) => items != []
    case Dict(members) => members != []
  }

  /** Python's `a or b`. */
  function Or(a: Value, b: Value): (r: Value)
    ensures Truthy(a) ==> r == a
    ensures !Truthy(a) ==> r == b
  {
    if Truthy(a) then a else b
  }

  /** The value of the last member named `key`: `json.load` keeps the last
      of duplicated keys. */
  function Lookup(members: seq<(string, Value)>, key: string): (r: Option<Value>)
    ensures r.None? <==> forall i :: 0 <= i < |members| ==> members[i].0 != key
    ensures r.Some? ==> exists i :: 0 <= i < |members| && members[i] == (key, r.value)
  {
    if members == [] then None
    else if members[|members| - 1].0 == key then Some(members[|members| - 1].1)
    else Lookup(members[..|members| - 1], key)
  }

  /** `key in d` for a dict `d`. */
  predicate HasKey(d: Value, key: string)
    requires d.Dict?
  {
    Lookup(d.members, key).Some?
  }

  /** `d.get(key, default)`; `d.get(key)` is `Get(d, key, Null)`. */
  function Get(d: Value, key: string, default: Value): (r: Value)
    requires d.Dict?
    ensures HasKey(d, key) ==> r == Lookup(d.members, key).value
    ensures !HasKey(d, key) ==> r == default
  {
    Lookup(d.members, key).GetOr(default)
  }

  /** `key in x` for a string `key`: a key of a dict, an element of a list,
      a substring of a string; any other value raises TypeError. */
  function Membership(x: Value, key: string): (r: Result<bool>)
    ensures r.Raised? <==> !(x.Dict? || x.List? || x.Str?)
  {
    match x
    case Dict(_) => Ok(HasKey(x, key))
    case List(items) => Ok(Str(key) in items)
    case Str(s) => Ok(PyStrings.Contains(s, key))
    case _ => Raised(TypeError)
  }

  /** The elements `for x in v` visits: the items of a list, the keys of a
      dict, the one-character strings of a string; iterating any other
      value raises TypeError. */
  function Iterate(v: Value): (r: Result<seq<Value>>)
    ensures r.Ok? <==> v.List? || v.Dict? || v.Str?
    ensures v.List? ==> r == Ok(v.items)
    ensures r.Ok? && !v.List? ==> forall k :: 0 <= k < |r.value| ==> r.value[k].Str?
  {
    match v
    case List(items) => Ok(items)
    case Dict(members) => Ok(seq(|members|, k requires 0 <= k < |members| => Str(members[k].0)))
    case Str(s) => Ok(seq(|s|, k requires 0 <= k < |s| => Str([s[k]])))
    case _ => Raised(TypeError)
  }

  /** `str(v)`. Inside a container, strings are shown between single quotes
      without Python's escaping. */
  function ToStr(v: Value): string
    decreases v, 0
  {
    match v
    case Null => "None"
    case Bool(b) => if b then "True" else "False"
    case Int(i) => IntToString(i)
    case Float(t) => t
    case Str(s) => s
    case List(items) =>
      "[" + Join(", ", seq(|items|, k requires 0 <= k < |items| => Repr(items[k]))) + "]"
    case Dict(members) =>
      "{" + Join(", ", seq(|members|, k requires 0 <= k < |members| =>
        "'" + members[k].0 + "': " + Repr(members[k].1))) + "}"
  }

  /** `repr(v)`, as far as `str()` of a container needs it. */
  function Repr(v: Value): string
    decreases v, 1
  {
    if v.Str? then "'" + v.s + "'" else ToStr(v)
  }
}
