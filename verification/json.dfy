/** The JSON values that the note and label documents hold, and the parts of
    Python's object protocol the source applies to them. */
module Json {

  /** A decoded JSON document. Numbers are integers only. */
  datatype Value =
    | Null
    | Bool(b: bool)
    | Num(n: int)
    | Str(s: string)
    | Arr(items: seq<Value>)
    | Obj(fields: map<string, Value>)

  /** Python's truth value of the decoded object (`if x:`): `None`, `False`,
      zero and empty containers are false, everything else is true. */
  predicate Truthy(v: Value)
  {
    match v
    case Null => false
    case Bool(b) => b
    case Num(n) => n != 0
    case Str(s) => s != ""
    case Arr(items) => items != []
    case Obj(fields) => fields != map[]
  }

  /** `d.get(k)`: the stored value, or `None` when the key is absent. */
  function Lookup(d: map<string, Value>, k: string): (v: Value)
    ensures k !in d ==> v == Null
    ensures k in d ==> v == d[k]
  {
    if k in d then d[k] else Null
  }

  /** A list of Python strings as a JSON array. */
  function Strs(xs: seq<string>): (vs: seq<Value>)
    ensures |vs| == |xs|
    ensures forall i :: 0 <= i < |xs| ==> vs[i] == Str(xs[i])
  {
    seq(|xs|, i requires 0 <= i < |xs| => Str(xs[i]))
  }

  /** A string is listed in `Strs(xs)` exactly when it is listed in `xs`. */
  lemma StrsMembers(xs: seq<string>)
    ensures forall c :: Str(c) in Strs(xs) <==> c in xs
  {
  }
}
