/** JSON values as Python holds them after `json.loads`. NaN is not modelled. */
module JsonModel {

  datatype Json =
    | Null
    | Bool(b: bool)
    | Int(n: int)
    | Float(x: real)
    | Str(s: string)
    | Arr(items: seq<Json>)
    | Obj(fields: map<string, Json>)

  /** `type(a) is type(b)` */
  predicate SameType(a: Json, b: Json) {
    match a
    case Null => b.Null?
    case Bool(_) => b.Bool?
    case Int(_) => b.Int?
    case Float(_) => b.Float?
    case Str(_) => b.Str?
    case Arr(_) => b.Arr?
    case Obj(_) => b.Obj?
  }

  /** Python's `a == b`: `True == 1 == 1.0`, lists and dicts element by element. */
  predicate PyEq(a: Json, b: Json) {
    Canonical(a) == Canonical(b)
  }

  /** One representative for each class of Python-equal values. */
  function Canonical(j: Json): Json {
    match j
    case Bool(b) => Float(if b then 1.0 else 0.0)
    case Int(n) => Float(n as real)
    case Arr(items) => Arr(seq(|items|, i requires 0 <= i < |items| => Canonical(items[i])))
    case Obj(fields) => Obj(map k | k in fields :: Canonical(fields[k]))
    case _ => j
  }

  /** `o.get(key)` on a dict; a missing key reads as None. */
  function Get(o: Json, key: string): Json {
    if o.Obj? && key in o.fields then o.fields[key] else Null
  }

  /** Only a string equals a string. */
  lemma PyEqString(a: Json, b: Json)
    requires b.Str?
    ensures PyEq(a, b) <==> a == b
  {
  }
}
