/** The few pieces of the Python runtime the pipeline touches: optional values, the
    dynamically typed values stored in result dictionaries, `dict.get`, truthiness,
    and the shared `results` list that every article task appends to. */
module PyValues {

  datatype Option<+T> = None | Some(value: T)

  /** A value stored in a result dictionary or a JSON response object.
      `Member(value)` is a member of an `Enum` class, kept by its `.value`. */
  datatype Value =
    | NoneValue
    | Str(s: string)
    | Int(i: int)
    | Float(x: real)
    | Member(value: string)

  /** A Python `dict` with string keys. */
  type Dict = map<string, Value>

  /** Python truthiness: `None`, `''`, `0` and `0.0` are false; enum members are true. */
  predicate Truthy(v: Value)
  {
    match v
    case NoneValue => false
    case Str(s) => s != ""
    case Int(i) => i != 0
    case Float(x) => x != 0.0
    case Member(_) => true
  }

  /** The falsy values: `None`, the empty string, and zero. */
  lemma FalsyValues(v: Value)
    ensures !Truthy(v) <==> v == NoneValue || v == Str("") || v == Int(0) || v == Float(0.0)
  {
  }

  /** `d.get(key)`: the stored value, or `None` when the key is absent. */
  function Get(d: Dict, key: string): (v: Value)
    ensures key !in d ==> v == NoneValue
    ensures key in d ==> v == d[key]
  {
    if key in d then d[key] else NoneValue
  }

  /** `None` for an absent optional, the wrapped value otherwise. */
  function FromOptionalReal(o: Option<real>): (v: Value)
    ensures o.None? <==> v == NoneValue
    ensures o.Some? ==> v == Float(o.value)
  {
    match o
    case None => NoneValue
    case Some(x) => Float(x)
  }

  function FromOptionalNat(o: Option<nat>): (v: Value)
    ensures o.None? <==> v == NoneValue
    ensures o.Some? ==> v == Int(o.value)
  {
    match o
    case None => NoneValue
    case Some(n) => Int(n)
  }

  /** A Python list of result dictionaries, shared by the tasks that append to it. */
  class ResultList {
    var items: seq<Dict>

    constructor ()
      ensures items == []
    {
      items := [];
    }

    /** `results.append(d)` */
    method Append(d: Dict)
      modifies this
      ensures items == old(items) + [d]
    {
      items := items + [d];
    }
  }
}
