/** Parsed JSON values as the handler receives them from the request, with the
    two Python operations the handler applies to them: truthiness (`not x`) and
    `dict.get`. */
module Json {

  /** A value produced by Python's JSON decoder: None, bool, a number (int or
      float), str, list or dict. */
  datatype Value =
    | Null
    | Bool(b: bool)
    | Num(n: real)
    | Str(s: string)
    | Arr(items: seq<Value>)
    | Obj(fields: map<string, Value>)

  /** Python truthiness: None, False, zero and empty str/list/dict are falsy,
      everything else is truthy. */
  predicate Truthy(v: Value)
  {
    match v
    case Null => false
    case Bool(b) => b
    case Num(n) => n != 0.0
    case Str(s) => |s| > 0
    case Arr(items) => |items| > 0
    case Obj(fields) => |fields| > 0
  }

  /** The value `fields.get(key)` returns: the stored value, or None when the
      key is absent. */
  function Get(fields: map<string, Value>, key: string): Value
  {
    if key in fields then fields[key] else Null
  }

  /** Exactly six values are falsy: null, false, 0, "", [] and {}. */
  lemma FalsyValues(v: Value)
    ensures !Truthy(v) <==> v in {Null, Bool(false), Num(0.0), Str(""), Arr([]), Obj(map[])}
  {
    if v.Obj? && |v.fields| == 0 {
      assert v.fields == map[];
    }
  }

  /** A key that is absent and a key explicitly set to null look the same to
      the handler: both read back as a falsy value. */
  lemma AbsentAndNullAgree(fields: map<string, Value>, key: string)
    ensures Get(fields - {key}, key) == Get(fields[key := Null], key)
    ensures !Truthy(Get(fields - {key}, key))
  {
  }
}
