/**
  JavaScript values as the request handler sees them once a request body has
  been parsed, the truthiness rule that `!x` and `x || y` apply to them, and
  the step that turns a raw request body into the three fields the handler
  destructures (`const { name, email, age } = body`).
 */
module JsValues {
  import opened Options

  /** The values `JSON.parse` can produce, plus `undefined` for a missing property.
      Numbers are exact rationals, so a literal too large for a double (which
      `JSON.parse` turns into `Infinity`) is not represented; strings are
      sequences of Unicode scalar values, so a lone UTF-16 surrogate is not
      either. */
  datatype JsValue =
    | Undefined
    | Null
    | Bool(b: bool)
    | Num(n: real)
    | Str(s: string)
    | Arr(items: seq<JsValue>)
    | Obj(props: map<string, JsValue>)

  /** JavaScript truthiness: `undefined`, `null`, `false`, `0` (and `-0`) and `""`
      are falsy; every other value, including `[]` and `{}`, is truthy. */
  predicate Truthy(v: JsValue) {
    match v
    case Undefined => false
    case Null => false
    case Bool(b) => b
    case Num(n) => n != 0.0
    case Str(s) => s != ""
    case Arr(_) => true
    case Obj(_) => true
  }

  /** The JavaScript expression `a || b`: `a` when it is truthy, otherwise `b`. */
  function Or(a: JsValue, b: JsValue): (r: JsValue)
    ensures Truthy(a) ==> r == a
    ensures !Truthy(a) ==> r == b
  {
    if Truthy(a) then a else b
  }

  /** Property access `v.key` on a parsed JSON value. Only objects carry the
      properties `name`, `email` and `age`; strings, numbers, booleans and
      arrays answer `undefined` for them. */
  function Property(v: JsValue, key: string): (r: JsValue)
    ensures !v.Obj? ==> r == Undefined
    ensures v.Obj? && key !in v.props ==> r == Undefined
    ensures v.Obj? && key in v.props ==> r == v.props[key]
  {
    match v
    case Obj(props) => if key in props then props[key] else Undefined
    case _ => Undefined
  }

  /** A request body after it has been read to the end: empty, text that is not
      JSON, or the value the JSON text denotes. */
  datatype RawBody = EmptyBody | Unparsable | Json(value: JsValue)

  /** `body ? JSON.parse(body) : {}` — an empty body stands for the empty object;
      text that does not parse is a failure. */
  function Parse(body: RawBody): (r: Option<JsValue>)
    ensures r.None? <==> body.Unparsable?
    ensures body.EmptyBody? ==> r == Some(Obj(map[]))
    ensures body.Json? ==> r == Some(body.value)
  {
    match body
    case EmptyBody => Some(Obj(map[]))
    case Unparsable => None
    case Json(v) => Some(v)
  }

  /** The three fields the handler reads from a request body. */
  datatype Fields = Fields(name: JsValue, email: JsValue, age: JsValue)

  /** `const { name, email, age } = body`: destructuring `null` throws a
      TypeError; every other parsed value yields its three properties. */
  function Destructure(v: JsValue): (r: Option<Fields>)
    ensures r.None? <==> v.Null?
    ensures r.Some? ==> r.value == Fields(Property(v, "name"), Property(v, "email"), Property(v, "age"))
  {
    if v.Null? then None
    else Some(Fields(Property(v, "name"), Property(v, "email"), Property(v, "age")))
  }

  /** Parsing and destructuring together; both failures end in the same
      `catch` block of the handler. */
  function ReadFields(body: RawBody): (r: Option<Fields>)
    ensures r.None? <==> body.Unparsable? || body == Json(Null)
    ensures body.EmptyBody? ==> r == Some(Fields(Undefined, Undefined, Undefined))
    ensures body.Json? && !body.value.Null? ==>
              r == Some(Fields(Property(body.value, "name"), Property(body.value, "email"), Property(body.value, "age")))
  {
    match Parse(body)
    case None => None
    case Some(v) => Destructure(v)
  }

  /** The create operation's presence check `!name || !email || !age` fails. */
  predicate Complete(f: Fields) {
    Truthy(f.name) && Truthy(f.email) && Truthy(f.age)
  }

  /** No field is truthy, so a merge with these fields keeps every old value. */
  predicate NothingSupplied(f: Fields) {
    !Truthy(f.name) && !Truthy(f.email) && !Truthy(f.age)
  }
}
