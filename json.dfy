/**
 * Parsed JSON values and the few JavaScript operations the locale tools apply
 * to them: truthiness, property access and strict equality.
 */
module JsonValue {

  /** A value as `JSON.parse` produces it; numbers as integers. */
  datatype Json =
    | JNull
    | JBool(b: bool)
    | JNumber(n: int)
    | JString(s: string)
    | JArray(items: seq<Json>)
    | JObject(fields: map<string, Json>)

  /** JavaScript truthiness. */
  predicate Truthy(v: Json)
  {
    match v
    case JNull => false
    case JBool(b) => b
    case JNumber(n) => n != 0
    case JString(s) => s != ""
    case _ => true
  }

  /** The result of reading a property: `undefined` or a value. */
  datatype Prop = Absent | Present(value: Json)

  /** `v[name]` for a value other than `null` (on which the read throws); only objects have own data properties here. */
  function Get(v: Json, name: string): (p: Prop)
    requires !v.JNull?
    ensures p.Present? <==> v.JObject? && name in v.fields
    ensures p.Present? ==> p.value == v.fields[name]
  {
    match v
    case JObject(fields) => if name in fields then Present(fields[name]) else Absent
    case _ => Absent
  }

  /**
   * `===` between two read results. Objects and arrays come from separate
   * parses, so two of them are never the same reference.
   */
  predicate StrictEquals(a: Prop, b: Prop)
  {
    match (a, b)
    case (Absent, Absent) => true
    case (Present(x), Present(y)) =>
      (match (x, y)
       case (JNull, JNull) => true
       case (JBool(p), JBool(q)) => p == q
       case (JNumber(m), JNumber(n)) => m == n
       case (JString(s), JString(t)) => s == t
       case _ => false)
    case _ => false
  }

  /** Strict equality is equality of primitives and never holds for two objects or arrays. */
  lemma StrictEqualsMeaning(a: Prop, b: Prop)
    ensures StrictEquals(a, b) <==>
      a == b && (a.Present? ==> !a.value.JArray? && !a.value.JObject?)
  {
  }

  /** A locale entry after loading: the parsed value and a use counter. */
  datatype Entry = Entry(translation: Json, count: nat)
}
