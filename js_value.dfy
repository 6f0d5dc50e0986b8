/**
 * The values a socket.io event can carry to a handler of the game server.
 * Payloads arrive as decoded JSON, or as `undefined` when the client sends
 * no argument; the server never inspects their shape except to test them
 * for truthiness, so objects and arrays are kept as plain data.
 */
module JsValue {

  datatype Value =
    | Undefined
    | Null
    | Bool(b: bool)
    | Number(x: real)
    | Str(s: string)
    | Array(items: seq<Value>)
    | Object(fields: seq<(string, Value)>)

  /**
   * JavaScript's ToBoolean, the test behind `if (v)` and `v || d`: every
   * value is truthy except the six falsy ones a payload can be.
   */
  predicate Truthy(v: Value): (b: bool)
    ensures b <==> v !in {Undefined, Null, Bool(false), Number(0.0), Str("")}
  {
    match v
    case Undefined => false
    case Null => false
    case Bool(b) => b
    case Number(x) => x != 0.0
    case Str(s) => s != ""
    case Array(_) => true
    case Object(_) => true
  }

  /** `a || b`: the left operand itself when it is truthy, otherwise the right one. */
  function Or(a: Value, b: Value): (r: Value)
    ensures Truthy(a) ==> r == a
    ensures !Truthy(a) ==> r == b
    ensures Truthy(r) <==> Truthy(a) || Truthy(b)
  {
    if Truthy(a) then a else b
  }

  /**
   * Whether `${v}` (a template-literal substitution, as in the server's log
   * lines) throws a TypeError. Primitives always convert. An object converts
   * through `toString` and then `valueOf`; a decoded object with an own
   * `toString` key hides the callable inherited one, its inherited `valueOf`
   * returns the object itself, and the conversion fails. Without such a key
   * it becomes "[object Object]" and its fields are not looked at. An array
   * converts through `join`, which converts each element in turn.
   */
  predicate ToStringThrows(v: Value)
  {
    match v
    case Array(items) => exists i | 0 <= i < |items| :: ToStringThrows(items[i])
    case Object(fields) => exists i | 0 <= i < |fields| :: fields[i].0 == "toString"
    case _ => false
  }

  /**
   * `v.key` for a key that no built-in prototype defines (such as
   * "username"): the last field of that name in a decoded object, which is
   * the one `JSON.parse` keeps, and `undefined` for anything else.
   */
  function Get(v: Value, key: string): (r: Value)
    requires !PropertyReadThrows(v)
    ensures v.Object? && (exists i | 0 <= i < |v.fields| :: v.fields[i].0 == key) ==>
              exists i | 0 <= i < |v.fields| ::
                v.fields[i] == (key, r) && forall j | i < j < |v.fields| :: v.fields[j].0 != key
    ensures v.Object? && (forall i | 0 <= i < |v.fields| :: v.fields[i].0 != key) ==> r == Undefined
    ensures !v.Object? ==> r == Undefined
    decreases if v.Object? then |v.fields| else 0
  {
    match v
    case Object(fields) =>
      if fields == [] then Undefined
      else if fields[|fields| - 1].0 == key then fields[|fields| - 1].1
      else
        var r := Get(Object(fields[..|fields| - 1]), key);
        assert forall i | 0 <= i < |fields| - 1 :: fields[..|fields| - 1][i] == fields[i];
        r
    case _ => Undefined
  }

  /**
   * Whether reading a property (`v.p`) throws a TypeError: only `undefined`
   * and `null` have no properties; primitives are boxed.
   */
  predicate PropertyReadThrows(v: Value)
  {
    v.Undefined? || v.Null?
  }
}
