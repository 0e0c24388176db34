/**
 * JSON values as the program holds them (an object keeps its insertion order) and what they mean
 * (an object is an unordered map).
 */
module Json {
  import opened Lists

  datatype Json =
    | Null
    | Bool(b: bool)
    | Num(n: int)
    | Str(s: string)
    | Arr(items: seq<Json>)
    | Obj(keys: seq<string>, fields: map<string, Json>)

  /** An object lists each of its keys once, in insertion order. */
  ghost predicate WellFormed(j: Json) {
    match j
    case Arr(items) => forall x <- items :: WellFormed(x)
    case Obj(keys, fields) =>
      && Distinct(keys)
      && (set k | k in keys) == fields.Keys
      && forall k <- fields :: WellFormed(fields[k])
    case _ => true
  }

  /** The value a JSON text stands for: object members have no order. */
  datatype Value =
    | VNull
    | VBool(b: bool)
    | VNum(n: int)
    | VStr(s: string)
    | VArr(items: seq<Value>)
    | VObj(fields: map<string, Value>)

  function Meaning(j: Json): Value {
    match j
    case Null => VNull
    case Bool(b) => VBool(b)
    case Num(n) => VNum(n)
    case Str(s) => VStr(s)
    case Arr(items) => VArr(seq(|items|, i requires 0 <= i < |items| => Meaning(items[i])))
    case Obj(_, fields) => VObj(map k | k in fields :: Meaning(fields[k]))
  }
}
