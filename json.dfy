/** The parsed document: a JSON value whose objects are string-keyed maps.
    Numbers are integers (fractional coordinates are not modelled). */
module Json {
  import opened Wrappers
  import Decimal

  datatype Json =
    | JNull
    | JBool(b: bool)
    | JNum(n: int)
    | JStr(s: string)
    | JArr(items: seq<Json>)
    | JObj(fields: map<string, Json>)

  /** JavaScript truthiness of a value: null, false, 0 and "" are falsy. */
  predicate Truthy(v: Json)
    ensures v.JNull? ==> !Truthy(v)
    ensures v.JObj? || v.JArr? ==> Truthy(v)
  {
    match v
    case JNull => false
    case JBool(b) => b
    case JNum(n) => n != 0
    case JStr(s) => s != ""
    case _ => true
  }

  /** A property read `v[i]` with a numeric index; None stands for `undefined`. */
  function Element(v: Json, i: nat): (r: Option<Json>)
    ensures r.Some? ==> v.JArr? || v.JObj? || v.JStr?
    ensures v.JArr? ==> (r.Some? <==> i < |v.items|)
  {
    match v
    case JArr(items) => if i < |items| then Some(items[i]) else None
    case JObj(fields) =>
      var key := Decimal.NatToString(i);
      if key in fields then Some(fields[key]) else None
    case JStr(s) => if i < |s| then Some(JStr([s[i]])) else None
    case _ => None
  }
}
