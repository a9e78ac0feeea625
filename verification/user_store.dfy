/**
  The in-memory `users` object and the five operations the request handler
  performs on it: create, list, get, update and delete. Each operation is a
  pure function from the current store (and the request's inputs) to the
  response it sends and the store it leaves behind.
 */
module UserStore {
  import opened Options
  import opened JsValues
  import opened Email

  /** A stored record `{ id, name, email, age }`. The three data fields hold
      whatever truthy values the request supplied. */
  datatype User = User(id: string, name: JsValue, email: JsValue, age: JsValue)

  /** The `users` object. `users` maps each id to its record; `order` lists the
      ids in the order their properties were created, which is the order
      `Object.values` reports them in (the ids are never integer-like). */
  datatype Store = Store(order: seq<string>, users: map<string, User>)

  /** `let users = {}`. */
  function EmptyStore(): (s: Store)
    ensures Valid(s) && |s.users| == 0
  {
    Store([], map[])
  }

  predicate Distinct(xs: seq<string>) {
    forall i, j :: 0 <= i < j < |xs| ==> xs[i] != xs[j]
  }

  /** What every reachable store satisfies: each id is listed once, the list
      and the map agree on the ids, and each record sits under its own id. */
  ghost predicate Valid(s: Store) {
    && Distinct(s.order)
    && (forall k :: k in s.users <==> k in s.order)
    && (forall k :: k in s.users ==> s.users[k].id == k)
  }

  const MsgRequired := "Name, email, and age are required"
  const MsgInvalidEmail := "Invalid email format"
  const MsgInvalidJson := "Invalid JSON data"
  const MsgCreated := "User created successfully"
  const MsgNotFound := "User not found"
  const MsgUpdated := "User updated successfully"
  const MsgDeleted := "User deleted successfully"

  /** The JSON body of a response: `{ message }`, `{ message, user }`, a bare
      user record, or an array of records. The last two shapes arise only from
      the lookup as written (see below): no body at all, when `JSON.stringify`
      yields `undefined`, and the empty object `{}`. */
  datatype Payload =
    | Message(text: string)
    | MessageAndUser(text: string, user: User)
    | Record(user: User)
    | Records(users: seq<User>)
    | NoBody
    | EmptyObject

  datatype Response = Response(status: nat, payload: Payload)

  /** The response sent and the store left behind by one request. */
  datatype Outcome = Outcome(response: Response, store: Store)

  /** An error response that leaves the store as it was. */
  function Reject(s: Store, status: nat, text: string): (o: Outcome)
    ensures o.store == s && o.response.status == status
  {
    Outcome(Response(status, Message(text)), s)
  }

  /** `users[u.id] = u`: a new id is appended to the property order, an
      existing one keeps its place. */
  function Assign(s: Store, u: User): (r: Store)
    requires Valid(s)
    ensures Valid(r)
    ensures r.users.Keys == s.users.Keys + {u.id}
    ensures u.id in r.users && r.users[u.id] == u
    ensures forall k :: k in s.users && k != u.id ==> r.users[k] == s.users[k]
    ensures u.id !in s.users ==> r.order == s.order + [u.id]
    ensures u.id in s.users ==> r.order == s.order
  {
    if u.id in s.users then Store(s.order, s.users[u.id := u])
    else Store(s.order + [u.id], s.users[u.id := u])
  }

  /** `xs` with the element `x` taken out, the others in their order. */
  function Without(xs: seq<string>, x: string): (r: seq<string>)
    ensures forall y :: y in r <==> y in xs && y != x
    ensures Distinct(xs) ==> Distinct(r)
  {
    if |xs| == 0 then []
    else if xs[0] == x then Without(xs[1..], x)
    else
      var rest := Without(xs[1..], x);
      assert Distinct(xs) ==> xs[0] !in xs[1..] && Distinct(xs[1..]);
      assert forall j :: 0 <= j < |rest| ==> rest[j] in xs[1..];
      [xs[0]] + rest
  }

  /** `delete users[id]` for an id that is present. */
  function Remove(s: Store, id: string): (r: Store)
    requires Valid(s)
    ensures Valid(r)
    ensures r.users.Keys == s.users.Keys - {id}
    ensures forall k :: k in r.users ==> r.users[k] == s.users[k]
  {
    Store(Without(s.order, id), s.users - {id})
  }

  /** POST /users. The checks run in the handler's order: a body that does not
      parse (or parses to `null`), then the presence of all three fields, then
      the email format. Only a request that passes all three stores a record,
      under the caller-supplied id that stands for `uuidv4()`. */
  function Create(s: Store, body: RawBody, freshId: string): (o: Outcome)
    requires Valid(s)
    ensures Valid(o.store)
    ensures o.response.status == 201 || o.response.status == 400
    ensures o.response.status == 400 ==> o.store == s
    ensures ReadFields(body).None? ==> o.response == Response(400, Message(MsgInvalidJson))
    ensures ReadFields(body).Some? && !Complete(ReadFields(body).value) ==>
              o.response == Response(400, Message(MsgRequired))
    ensures ReadFields(body).Some? && Complete(ReadFields(body).value) && EmailTest(ReadFields(body).value.email) == Throws ==>
              o.response == Response(400, Message(MsgInvalidJson))
    ensures ReadFields(body).Some? && Complete(ReadFields(body).value) && EmailTest(ReadFields(body).value.email) == NoMatch ==>
              o.response == Response(400, Message(MsgInvalidEmail))
    ensures o.response.status == 201 <==>
              ReadFields(body).Some? && Complete(ReadFields(body).value) && EmailAccepts(ReadFields(body).value.email)
    ensures o.response.status == 201 ==>
              var f := ReadFields(body).value;
              var u := User(freshId, f.name, f.email, f.age);
              && o.response.payload == MessageAndUser(MsgCreated, u)
              && o.store.users.Keys == s.users.Keys + {freshId}
              && o.store.users[freshId] == u
              && (forall k :: k in s.users && k != freshId ==> o.store.users[k] == s.users[k])
    ensures o.response.status == 201 && freshId !in s.users ==>
              |o.store.users| == |s.users| + 1 && o.store.order == s.order + [freshId]
  {
    match ReadFields(body)
    case None => Reject(s, 400, MsgInvalidJson)
    case Some(f) =>
      if !Truthy(f.name) || !Truthy(f.email) || !Truthy(f.age) then Reject(s, 400, MsgRequired)
      else match EmailTest(f.email)
        case Throws => Reject(s, 400, MsgInvalidJson)
        case NoMatch => Reject(s, 400, MsgInvalidEmail)
        case Matches =>
          var u := User(freshId, f.name, f.email, f.age);
          Outcome(Response(201, MessageAndUser(MsgCreated, u)), Assign(s, u))
  }

  /** GET /users: every stored record, each once, in property order. */
  function List(s: Store): (r: seq<User>)
    requires Valid(s)
    ensures |r| == |s.users|
    ensures forall i :: 0 <= i < |r| ==> r[i].id in s.users && s.users[r[i].id] == r[i]
    ensures forall i, j :: 0 <= i < j < |r| ==> r[i].id != r[j].id
    ensures forall k :: k in s.users ==> s.users[k] in r
  {
    OrderCoversStore(s);
    var r := seq(|s.order|, i requires 0 <= i < |s.order| => s.users[s.order[i]]);
    assert forall i :: 0 <= i < |r| ==> r[i].id == s.order[i];
    assert forall k :: k in s.users ==> s.users[k] in r by {
      forall k | k in s.users ensures s.users[k] in r {
        var i :| 0 <= i < |s.order| && s.order[i] == k;
        assert r[i] == s.users[k];
      }
    }
    r
  }

  /** GET /users/:id: the stored record, or "User not found". */
  function Get(s: Store, id: string): (r: Response)
    ensures r.status == 200 <==> id in s.users
    ensures id in s.users ==> r.payload == Record(s.users[id])
    ensures id !in s.users ==> r == Response(404, Message(MsgNotFound))
  {
    if id in s.users then Response(200, Record(s.users[id]))
    else Response(404, Message(MsgNotFound))
  }

  /** The record after the merge `{ ...old, name: name || old.name,
      email: email || old.email, age: age || old.age }`. */
  function Merge(prev: User, f: Fields): (u: User)
    ensures u.id == prev.id
    ensures u.name == (if Truthy(f.name) then f.name else prev.name)
    ensures u.email == (if Truthy(f.email) then f.email else prev.email)
    ensures u.age == (if Truthy(f.age) then f.age else prev.age)
  {
    User(prev.id, Or(f.name, prev.name), Or(f.email, prev.email), Or(f.age, prev.age))
  }

  /** The body of a PUT passes the handler's checks: it parses to a value
      that can be destructured, and a truthy email passes the format check. */
  predicate UpdateBodyAccepted(body: RawBody) {
    ReadFields(body).Some? &&
    (Truthy(ReadFields(body).value.email) ==> EmailAccepts(ReadFields(body).value.email))
  }

  /** The refusal of a PUT body that fails the checks: "Invalid JSON data"
      when it does not parse or its email cannot be turned into text,
      "Invalid email format" when the email text does not match. */
  function BodyRefusal(body: RawBody): (text: string)
    ensures text == MsgInvalidJson || text == MsgInvalidEmail
    ensures text == MsgInvalidEmail <==>
              ReadFields(body).Some? && Truthy(ReadFields(body).value.email) &&
              EmailTest(ReadFields(body).value.email) == NoMatch
  {
    match ReadFields(body)
    case None => MsgInvalidJson
    case Some(f) => if Truthy(f.email) && EmailTest(f.email) == NoMatch then MsgInvalidEmail else MsgInvalidJson
  }

  /** PUT /users/:id. An unknown id is refused before the body is read; then
      a body that does not parse, then a truthy email that cannot be turned
      into text or fails the format check; otherwise the record is merged
      field by field. */
  function Update(s: Store, id: string, body: RawBody): (o: Outcome)
    requires Valid(s)
    ensures Valid(o.store)
    ensures o.response.status != 200 ==> o.store == s
    ensures id !in s.users ==> o == Reject(s, 404, MsgNotFound)
    ensures id in s.users && ReadFields(body).None? ==> o == Reject(s, 400, MsgInvalidJson)
    ensures id in s.users && ReadFields(body).Some? &&
            Truthy(ReadFields(body).value.email) && EmailTest(ReadFields(body).value.email) == Throws ==>
              o == Reject(s, 400, MsgInvalidJson)
    ensures id in s.users && ReadFields(body).Some? &&
            Truthy(ReadFields(body).value.email) && EmailTest(ReadFields(body).value.email) == NoMatch ==>
              o == Reject(s, 400, MsgInvalidEmail)
    ensures o.response.status == 200 <==> id in s.users && UpdateBodyAccepted(body)
    ensures o.response.status == 200 ==>
              var u := Merge(s.users[id], ReadFields(body).value);
              && u.id == id
              && o.response.payload == MessageAndUser(MsgUpdated, u)
              && o.store.order == s.order
              && o.store.users.Keys == s.users.Keys
              && o.store.users[id] == u
              && (forall k :: k in s.users && k != id ==> o.store.users[k] == s.users[k])
  {
    if id !in s.users then Reject(s, 404, MsgNotFound)
    else if !UpdateBodyAccepted(body) then Reject(s, 400, BodyRefusal(body))
    else
      var u := Merge(s.users[id], ReadFields(body).value);
      Outcome(Response(200, MessageAndUser(MsgUpdated, u)), Assign(s, u))
  }

  /** PUT /users/:id with its two halves apart, as the handler runs them: the
      lookup and the 404 check see the store `before` the request arrived in;
      the merge, which starts from the record read then, writes into the store
      `after` that the requests completed while the body was arriving left. */
  function UpdateAcrossBodyRead(before: Store, after: Store, id: string, body: RawBody): (o: Outcome)
    requires Valid(before) && Valid(after)
    ensures Valid(o.store)
    ensures before == after ==> o == Update(before, id, body)
    ensures o.response.status != 200 ==> o.store == after
    ensures id !in before.users ==> o == Reject(after, 404, MsgNotFound)
    ensures o.response.status == 200 <==> id in before.users && UpdateBodyAccepted(body)
    ensures o.response.status == 200 ==>
              var u := Merge(before.users[id], ReadFields(body).value);
              && o.response.payload == MessageAndUser(MsgUpdated, u)
              && o.store.users.Keys == after.users.Keys + {id}
              && o.store.users[id] == u
              && (forall k :: k in after.users && k != id ==> o.store.users[k] == after.users[k])
  {
    if id !in before.users then Reject(after, 404, MsgNotFound)
    else if !UpdateBodyAccepted(body) then Reject(after, 400, BodyRefusal(body))
    else
      var u := Merge(before.users[id], ReadFields(body).value);
      Outcome(Response(200, MessageAndUser(MsgUpdated, u)), Assign(after, u))
  }

  /** DELETE /users/:id. */
  function Delete(s: Store, id: string): (o: Outcome)
    requires Valid(s)
    ensures Valid(o.store)
    ensures o.response == Response(404, Message(MsgNotFound)) <==> id !in s.users
    ensures id !in s.users ==> o.store == s
    ensures id in s.users ==>
              && o.response == Response(200, Message(MsgDeleted))
              && o.store.users.Keys == s.users.Keys - {id}
              && (forall k :: k in o.store.users ==> o.store.users[k] == s.users[k])
              && |o.store.users| == |s.users| - 1
  {
    if id !in s.users then Reject(s, 404, MsgNotFound)
    else Outcome(Response(200, Message(MsgDeleted)), Remove(s, id))
  }

  // ---------------------------------------------------------------------
  // Properties relating several operations
  // ---------------------------------------------------------------------

  function SetOf(xs: seq<string>): (r: set<string>)
    ensures forall x :: x in r <==> x in xs
  {
    set x | x in xs
  }

  lemma SetOfFirst(xs: seq<string>)
    requires |xs| > 0
    ensures SetOf(xs) == {xs[0]} + SetOf(xs[1..])
  {
  }

  lemma {:induction false} DistinctSetSize(xs: seq<string>)
    requires Distinct(xs)
    ensures |SetOf(xs)| == |xs|
  {
    if |xs| > 0 {
      DistinctSetSize(xs[1..]);
      assert SetOf(xs) == {xs[0]} + SetOf(xs[1..]);
      assert xs[0] !in SetOf(xs[1..]);
    }
  }

  /** The property order lists every stored id exactly once. */
  lemma OrderCoversStore(s: Store)
    requires Valid(s)
    ensures |s.order| == |s.users|
  {
    DistinctSetSize(s.order);
    assert s.users.Keys == SetOf(s.order);
  }

  /** A record just created can be read back unchanged. */
  lemma GetAfterCreate(s: Store, body: RawBody, freshId: string)
    requires Valid(s)
    requires Create(s, body, freshId).response.status == 201
    ensures Get(Create(s, body, freshId).store, freshId) == Response(200, Record(Create(s, body, freshId).response.payload.user))
  {
  }

  /** Repeating a successful update leaves the store as the first one left it. */
  lemma UpdateIsIdempotent(s: Store, id: string, body: RawBody)
    requires Valid(s)
    requires Update(s, id, body).response.status == 200
    ensures Update(Update(s, id, body).store, id, body).store == Update(s, id, body).store
  {
  }

  /** An update whose body supplies no truthy field succeeds and changes nothing. */
  lemma UpdateWithNothingSuppliedChangesNothing(s: Store, id: string, body: RawBody)
    requires Valid(s) && id in s.users
    requires ReadFields(body).Some? && NothingSupplied(ReadFields(body).value)
    ensures Update(s, id, body).response.status == 200
    ensures Update(s, id, body).store == s
  {
  }

  /** Deleting an id a second time answers "User not found". */
  lemma DeleteTwiceIsNotFound(s: Store, id: string)
    requires Valid(s)
    ensures Delete(Delete(s, id).store, id).response == Response(404, Message(MsgNotFound))
  {
  }

  /** A deleted record can no longer be read. */
  lemma GetAfterDelete(s: Store, id: string)
    requires Valid(s)
    ensures Get(Delete(s, id).store, id) == Response(404, Message(MsgNotFound))
  {
  }

  /** A deleted record can no longer be updated. */
  lemma UpdateAfterDeleteIsNotFound(s: Store, id: string, body: RawBody)
    requires Valid(s)
    ensures Update(Delete(s, id).store, id, body) == Reject(Delete(s, id).store, 404, MsgNotFound)
  {
  }

  /** A DELETE that completes while a PUT's body is still arriving is undone:
      the PUT answers 200 and puts the deleted record back, where the same PUT
      applied after the DELETE answers "User not found". */
  lemma UpdateAcrossBodyReadRestoresDeletedUser(s: Store, id: string)
    requires Valid(s) && id in s.users
    ensures
      var after := Delete(s, id).store;
      var o := UpdateAcrossBodyRead(s, after, id, EmptyBody);
      && o.response == Response(200, MessageAndUser(MsgUpdated, s.users[id]))
      && id in o.store.users && o.store.users[id] == s.users[id]
      && Update(after, id, EmptyBody) == Reject(after, 404, MsgNotFound)
  {
  }

  // ---------------------------------------------------------------------
  // The lookup as the handler writes it
  // ---------------------------------------------------------------------

  /** The properties every plain object inherits from `Object.prototype`.
      `users[id]` finds these for an id the store has never held. */
  const InheritedKeys: set<string> := {
    "constructor", "__proto__", "toString", "toLocaleString", "valueOf",
    "hasOwnProperty", "isPrototypeOf", "propertyIsEnumerable",
    "__defineGetter__", "__defineSetter__", "__lookupGetter__", "__lookupSetter__"
  }

  /** `!users[id]` is false: an own record, or an inherited method, which is
      a truthy function. */
  predicate FoundAsWritten(s: Store, id: string) {
    id in s.users || id in InheritedKeys
  }

  /** DELETE /users/:id exactly as the handler performs it: the presence test
      `!users[id]` also passes for an inherited key, and `delete users[id]`
      then removes nothing. */
  function DeleteAsWritten(s: Store, id: string): (o: Outcome)
    requires Valid(s)
    ensures Valid(o.store)
    ensures o.response.status == 200 <==> FoundAsWritten(s, id)
    ensures id !in s.users ==> o.store == s
    ensures id in s.users ==> o == Delete(s, id)
  {
    if !FoundAsWritten(s, id) then Reject(s, 404, MsgNotFound)
    else if id in s.users then Outcome(Response(200, Message(MsgDeleted)), Remove(s, id))
    else Outcome(Response(200, Message(MsgDeleted)), s)
  }

  /** What `users[id]` is for an inherited key: `Object.prototype` itself for
      `__proto__`, and otherwise a built-in function. */
  datatype Inherited = ObjectPrototype | BuiltIn(fnName: string)

  function InheritedValue(key: string): (v: Inherited)
    requires key in InheritedKeys
    ensures v.ObjectPrototype? <==> key == "__proto__"
    ensures v.BuiltIn? ==> v.fnName == (if key == "constructor" then "Object" else key)
  {
    if key == "__proto__" then ObjectPrototype
    else if key == "constructor" then BuiltIn("Object")
    else BuiltIn(key)
  }

  /** The `name` property of an inherited value: a function's own name, and
      nothing for `Object.prototype`. Neither has an `email` or `age`. */
  function InheritedName(v: Inherited): (r: JsValue)
    ensures r.Str? <==> v.BuiltIn?
  {
    match v
    case ObjectPrototype => Undefined
    case BuiltIn(n) => Str(n)
  }

  /** GET /users/:id exactly as the handler performs it. For an inherited key
      the test `!user` passes; `JSON.stringify` of a function is `undefined`,
      so the 200 response has no body, and `Object.prototype` has no own
      enumerable property, so it is sent as `{}`. */
  function GetAsWritten(s: Store, id: string): (r: Response)
    ensures r.status == 200 <==> FoundAsWritten(s, id)
    ensures id in s.users ==> r == Get(s, id)
    ensures !FoundAsWritten(s, id) ==> r == Get(s, id)
    ensures id !in s.users && id in InheritedKeys ==>
              r.payload == (if id == "__proto__" then EmptyObject else NoBody)
  {
    if id in s.users || id !in InheritedKeys then Get(s, id)
    else match InheritedValue(id)
      case ObjectPrototype => Response(200, EmptyObject)
      case BuiltIn(_) => Response(200, NoBody)
  }

  /** A record as the update writes it. The merge spreads the old value, so
      the record has an `id` only when the old value was a stored record. */
  datatype Written = Written(id: Option<string>, name: JsValue, email: JsValue, age: JsValue)

  /** What the update as written does: it refuses with a message, or it
      answers 200 "User updated successfully" with the record it wrote, either
      as the own property `key` or, for `__proto__`, as the object's new
      prototype, which creates no own property. */
  datatype UpdateEffect =
    | Refused(status: nat, text: string)
    | WroteOwn(key: string, record: Written)
    | WrotePrototype(record: Written)

  /** A stored record as the update writes it back. */
  function AsWritten(u: User): (w: Written)
    ensures w.id == Some(u.id)
  {
    Written(Some(u.id), u.name, u.email, u.age)
  }

  /** PUT /users/:id exactly as the handler performs it: the lookup
      `users[id]` also finds an inherited value, which the merge then spreads
      and reads `name`, `email` and `age` from. */
  function UpdateAsWritten(s: Store, id: string, body: RawBody): (r: UpdateEffect)
    requires Valid(s)
    ensures !FoundAsWritten(s, id) ==> r == Refused(404, MsgNotFound)
    ensures FoundAsWritten(s, id) ==>
              (r.Refused? <==> !UpdateBodyAccepted(body)) &&
              (r.Refused? ==> r == Refused(400, BodyRefusal(body)))
    ensures id in s.users ==>
              && (r.Refused? ==> Update(s, id, body) == Reject(s, r.status, r.text))
              && (!r.Refused? ==> r == WroteOwn(id, AsWritten(Update(s, id, body).store.users[id])))
    ensures id !in s.users && id in InheritedKeys && !r.Refused? ==>
              var f := ReadFields(body).value;
              && r.WrotePrototype? == (id == "__proto__")
              && (r.WroteOwn? ==> r.key == id)
              && r.record == Written(None, Or(f.name, InheritedName(InheritedValue(id))), Or(f.email, Undefined), Or(f.age, Undefined))
  {
    if !FoundAsWritten(s, id) then Refused(404, MsgNotFound)
    else if !UpdateBodyAccepted(body) then Refused(400, BodyRefusal(body))
    else if id in s.users then
      WroteOwn(id, AsWritten(Merge(s.users[id], ReadFields(body).value)))
    else
      var f := ReadFields(body).value;
      var w := Written(None, Or(f.name, InheritedName(InheritedValue(id))), Or(f.email, Undefined), Or(f.age, Undefined));
      if id == "__proto__" then WrotePrototype(w) else WroteOwn(id, w)
  }

  /** On an empty store, `GET /users/constructor` answers 200 with no body;
      the corrected `Get` answers "User not found". */
  lemma GetAsWrittenAnswersEmptyBody()
    ensures GetAsWritten(EmptyStore(), "constructor") == Response(200, NoBody)
    ensures Get(EmptyStore(), "constructor") == Response(404, Message(MsgNotFound))
  {
  }

  /** On an empty store, `PUT /users/constructor` with body `{}` answers 200
      and writes under the own key `constructor` a record with no `id`, named
      after the inherited constructor `Object`, so the record no longer sits
      under its own id. The corrected `Update` answers "User not found". */
  lemma UpdateAsWrittenStoresRecordWithoutId()
    ensures UpdateAsWritten(EmptyStore(), "constructor", Json(Obj(map[]))) ==
              WroteOwn("constructor", Written(None, Str("Object"), Undefined, Undefined))
    ensures Update(EmptyStore(), "constructor", Json(Obj(map[]))) == Reject(EmptyStore(), 404, MsgNotFound)
  {
  }

  /** On an empty store, deleting user `constructor` reports success although
      no such user exists; the corrected `Delete` answers "User not found". */
  lemma DeleteAsWrittenReportsPhantomUser()
    ensures DeleteAsWritten(EmptyStore(), "constructor") == Outcome(Response(200, Message(MsgDeleted)), EmptyStore())
    ensures Delete(EmptyStore(), "constructor") == Outcome(Response(404, Message(MsgNotFound)), EmptyStore())
  {
  }
}
