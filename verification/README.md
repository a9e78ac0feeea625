# User CRUD server — Dafny model

This project models the request handler of a small Node.js HTTP server. The
server keeps "user" records (`id`, `name`, `email`, `age`) in one in-memory
object and serves these routes:

- `POST /users` creates a user.
- `GET /users` lists all users.
- `GET`, `PUT` and `DELETE` on `/users/:id` read, update and delete one user.
- Every other method and path answers 404 "Route not found".

The model is purely functional. One request is a function from the current
store to the response and the next store. Requests are applied one at a time.

| file | module | what it holds |
|---|---|---|
| `options.dfy` | `Options` | the `Option` type shared by the others |
| `js_values.dfy` | `JsValues` | JSON values, JavaScript truthiness, `a \|\| b`, reading `name`/`email`/`age` out of a raw body |
| `email.dfy` | `Email` | `isValidEmail` and its equivalence with the regular expression's concatenation form |
| `routing.dfy` | `Routing` | `split('/')`, `filter(Boolean)`, and the dispatch chain |
| `user_store.dfy` | `UserStore` | the store, its invariant, and create/list/get/update/delete |
| `server.dfy` | `Server` | the whole handler, request replay, and cross-route properties |

Modelling decisions:

- **The store** is `Store(order, users)`. `users` maps an id to its record, and `order` lists the ids in the order they were first assigned.
  - A JavaScript object reports string keys that are not integer-like (uuids never are) in that order, so `List` returns records in the order `Object.values` would.
  - `Valid` is the store invariant: each id appears once, `order` and `users` agree, and every record sits under its own id. The empty store satisfies it, and every operation preserves it.
- **The request body** is given already read. It is empty, text that is not JSON, or a JSON value.
  - An empty body stands for `{}`, so it fails the presence check.
  - A body of JSON `null` makes the destructuring `const { name, email, age } = body` throw. The same `catch` handles it, so it also answers "Invalid JSON data".
  - Any other non-object body (a number, string or array) has no `name`, `email` or `age`.
- **The email test** has three outcomes: the text matches, it does not, or turning the value into text throws. The last happens for an object with its own `toString` property, and it lands in the same `catch`, so it answers "Invalid JSON data".
- **The lookup `users[id]`** is modelled in two ways. The main model (`Get`, `Update`, `Delete`, `Server.Handle`) finds only stored ids. The `…AsWritten` members also find the properties every object inherits from `Object.prototype`, as the handler does; see "## Findings".
- **`uuidv4()`** is a parameter, `freshId`. `Create` makes no assumption about it: a colliding id would overwrite, exactly as `users[id] = newUser` would. Lemmas that need distinct ids ask for them.
- **Falsy values** are treated as the handler treats them: `""`, `0`, `false`, `null` and a missing field.
  - They fail the presence check on create.
  - On update they are ignored, so the old value stays. A client cannot set `age` to `0` or `name` to `""`.
  - The model keeps this behaviour as it is.
- **Responses** are a status code plus one of the four JSON body shapes the handler sends: `{message}`, `{message, user}`, a bare record, or an array of records. The as-written lookup adds two more: no body at all, and `{}`.
- **Requests** are applied one at a time by `Server.Handle`. A PUT really runs in two halves, though: the lookup and the 404 check happen when it arrives, and the write happens when its body has been read. `UserStore.UpdateAcrossBodyRead` models the two halves on two stores.

## Model

| member | source | states |
|---|---|---|
| `Email.ValidEmailMatchesPattern` | server.js:10-12 | a string passes the validator exactly when it is a non-empty local part, `@`, a non-empty domain label, `.`, and a non-empty last label, none of them containing whitespace or `@` |
| `Email.ValidEmailHasOneAtAndNoSpace` | server.js:10-12 | an accepted address contains exactly one `@` and no JavaScript whitespace character |
| `Email.ExampleAddressIsValid` | server.js:10-12 | `alice@example.com` is accepted |
| `Email.AddressWithoutAtIsInvalid` | server.js:10-12 | every string without `@` is rejected |
| `Email.NotAnEmailIsInvalid` | server.js:10-12 | `not-an-email` is rejected |
| `Email.EmailTest` | server.js:10-12 | the test matches exactly a string that passes the validator, and throws exactly for an object with its own `toString` property |
| `Email.CoercedTextsAreInvalid` | server.js:10-12 | the texts `undefined`, `null`, `true`, `false` and `[object Object]` are rejected |
| `JsValues.ReadFields` | server.js:21-42 | reading the body fails exactly when its text is not JSON or is `null`; an empty body yields three missing fields; any other parsed value yields its own `name`, `email` and `age` properties, missing ones as `undefined` |
| `Routing.JoinSplitOn` | server.js:32 | joining the pieces of `url.split('/')` with `/` gives the URL back |
| `Routing.SplitOnJoin` | server.js:32 | splitting a `/`-join of `/`-free pieces gives exactly those pieces, so the split loses nothing |
| `Routing.DropEmptyCounts` | server.js:32 | `filter(Boolean)` keeps each non-empty piece exactly as often as it occurs and drops every empty one |
| `Routing.DropEmptyConcat` | server.js:32 | `filter(Boolean)` of two lists joined is the two filtered lists joined, so the pieces keep their order |
| `Routing.DropEmptyKeepsNonEmpty` | server.js:32 | a list without empty strings passes `filter(Boolean)` unchanged |
| `Routing.SegmentsOfJoin` | server.js:32 | for any non-empty list of non-empty, `/`-free words, the segments of `/w1/…/wn` are exactly those words in order |
| `Routing.UserId` | server.js:78-79 | a by-id route exists exactly when there are at least two segments and the first is `users`; the id is the second segment |
| `Routing.Dispatch` | server.js:39-146 | create and list match only the exact URL `/users`; get, update and delete match a `users/<id>` prefix with their own method; everything else is "Route not found" |
| `Routing.SegmentsOfUserPath` | server.js:32 | `/users/<id>` splits into `users` and the id for any non-empty id without `/` |
| `Routing.TrailingSlashMatchesNothing` | server.js:32-146 | `GET /users/` and `POST /users/` fall through to "Route not found" |
| `Routing.ExtraSegmentsAreIgnored` | server.js:78-79 | `/users/<id>/<anything>` addresses user `<id>` for get, update and delete; later segments are ignored |
| `UserStore.EmptyStore` | server.js:7 | the initial store is empty and satisfies the store invariant |
| `UserStore.Create` | server.js:39-63 | a bad body gives "Invalid JSON data"; then any falsy field gives "…are required"; then an email that cannot be turned into text gives "Invalid JSON data" and one that does not match gives "Invalid email format"; every rejection leaves the store unchanged; success returns 201 with `{id, name, email, age}` stored under the new id and nothing else changed |
| `UserStore.List` | server.js:69-73 | the list has one entry per stored id, every entry is the record stored under its id, no id appears twice, and every stored record appears |
| `UserStore.Get` | server.js:78-87 | 200 with the stored record exactly when the id is present, otherwise 404 "User not found" |
| `UserStore.Update` | server.js:92-123 | an unknown id gives 404 before the body is read; then a bad body gives "Invalid JSON data"; then a truthy email that cannot be turned into text gives "Invalid JSON data", and one that does not match gives "Invalid email format"; otherwise each field takes the supplied value only if that value is truthy, and the id, the id order and every other record stay as they were |
| `UserStore.Delete` | server.js:128-138 | 404 exactly when the id is absent, and then nothing changes; otherwise exactly that key is removed, every other record is kept, and the size drops by one |
| `UserStore.OrderCoversStore` | server.js:7 | the id order of a valid store lists every stored id exactly once |
| `UserStore.GetAfterCreate` | server.js:54-59 | reading the id a create just assigned returns the record the create returned |
| `UserStore.UpdateIsIdempotent` | server.js:110-115 | repeating a successful update leaves the store the first one produced |
| `UserStore.UpdateWithNothingSuppliedChangesNothing` | server.js:103-115 | an update whose body has no truthy field succeeds and leaves the store identical |
| `UserStore.DeleteTwiceIsNotFound` | server.js:128-133 | deleting the same id a second time answers 404 "User not found" |
| `UserStore.GetAfterDelete` | server.js:80-84 | a deleted id can no longer be read |
| `UserStore.UpdateAfterDeleteIsNotFound` | server.js:94-98 | a deleted id can no longer be updated, whatever the body |
| `UserStore.UpdateAcrossBodyRead` | server.js:92-118 | the PUT as it runs: 404 and the record it merges come from the store at arrival, and the merged record is written into the store left when the body has been read, with every other record of that store kept; on one store it equals `Update` |
| `UserStore.UpdateAcrossBodyReadRestoresDeletedUser` | server.js:94-110 | a DELETE that completes while a PUT's body is arriving is undone: the PUT answers 200 and the record is back, where the PUT applied after the DELETE answers 404 |
| `UserStore.GetAsWritten` | server.js:78-87 | the GET as written: 200 exactly when the id is stored or inherited; an inherited function answers with no body, `__proto__` with `{}`; otherwise as `Get` |
| `UserStore.GetAsWrittenAnswersEmptyBody` | server.js:80-86 | on an empty store, `GET /users/constructor` answers 200 with no body where the corrected `Get` answers 404 |
| `UserStore.UpdateAsWritten` | server.js:92-118 | the PUT as written: an inherited key passes the 404 check; the same body checks follow; for a stored id it writes what `Update` writes; for an inherited key it writes a record with no `id`, whose `name` falls back to the inherited value's name, and for `__proto__` the write replaces the prototype instead of adding a key |
| `UserStore.UpdateAsWrittenStoresRecordWithoutId` | server.js:94-115 | on an empty store, `PUT /users/constructor` with `{}` answers 200 and writes `{name: "Object"}` with no `id` under the key `constructor`, where the corrected `Update` answers 404 |
| `UserStore.DeleteAsWritten` | server.js:128-137 | the delete branch as written: its presence test also accepts inherited `Object.prototype` keys, for which it answers 200 and removes nothing |
| `UserStore.DeleteAsWrittenReportsPhantomUser` | server.js:130-137 | on an empty store, the as-written delete of id `constructor` answers "User deleted successfully" where the corrected delete answers "User not found" |
| `Server.Handle` | server.js:31-147 | the handler keeps the store invariant; an unmatched route answers 404 "Route not found"; every error response leaves the store unchanged; only create, update and delete can change it; list and get are read-only |
| `Server.CreatesStoreTheirIds` | server.js:54-56 | a run of successful creates adds exactly the ids handed out to the store's keys |
| `Server.ListAfterCreates` | server.js:54-56 | after `n` successful creates with distinct ids on the empty store, `GET /users` lists `n` records |
| `Server.GetAfterCreate` | server.js:39-87 | `POST /users` followed by `GET /users/<new id>` returns the created record |
| `Server.GetAndDeleteAfterDelete` | server.js:78-137 | after `DELETE /users/<id>`, both `GET` and a repeated `DELETE` of that URL answer 404 "User not found" |
| `Server.EmptyCreateBodyIsIncomplete` | server.js:21 | `POST /users` with an empty body answers 400 "Name, email, and age are required" and changes nothing |

## Left out

- The HTTP server, the port, the `Content-Type` header and the startup log are I/O plumbing.
- Reading the body in chunks and `JSON.parse` are I/O plus a library parser. The body arrives already parsed.
- `uuidv4()` draws random numbers. Its result is the `freshId` parameter.
- `JSON.stringify` is library serialisation. A response is a status plus a structured payload, not text.
- `Email.EmailTest`: JavaScript turns an array into text by joining its elements. The model treats every array as not matching. An array whose joined text is a valid address (`["a@b.c"]`) passes in JavaScript, and one holding an object with its own `toString` throws; the model answers "Invalid email format" for both. Number-to-text conversion is not modelled either; the text of a number never contains `@`, so a number never matches.
- `JsValues.JsValue`: numbers are exact rationals, so a JSON number too large for a double, which `JSON.parse` turns into `Infinity` (truthy, so a create stores it), has no counterpart. Strings are sequences of Unicode scalar values, so a lone UTF-16 surrogate, which `JSON.parse` can produce, has none either. Neither changes the validator's verdict on a string the model can represent.
- `Server.ListAfterCreates`: distinct ids are a precondition. `uuidv4()` gives no such guarantee in principle; a collision overwrites, and `Create` models that.
- Requests from different connections interleave on the event loop. `Server.Handle` applies each request whole, one at a time, so it is not faithful for a PUT whose body is still arriving when another request completes. The PUT's lookup and 404 check happen on arrival and its write when the body completes. `UserStore.UpdateAcrossBodyRead` models that split for one PUT; a whole interleaved schedule of requests is not modelled.
- `UserStore.Get`: uses the corrected lookup. As written, `GET /users/constructor` (and any other inherited key) answers 200 with no body, or `{}` for `__proto__`. `UserStore.GetAsWritten` models that.
- `UserStore.Update`: uses the corrected lookup. As written, `PUT /users/constructor` with `{}` answers 200 "User updated successfully" and stores `{name: "Object"}`, with no `id`, under the own key `constructor`. `UserStore.UpdateAsWritten` models that.
- `Server.Handle`: uses the corrected lookup, so it keeps the store invariant. As written, the PUT above leaves a record that does not sit under its own id, and the invariant no longer holds.
- `UserStore.UpdateAsWritten`: for `__proto__` it records that the write replaces the store object's prototype. What later lookups then find through that new prototype is not modelled.

## Findings

| source | as written | input that shows it | evidently intended | confidence | as-written member | corrected member |
|---|---|---|---|---|---|---|
| server.js:80-86 | `const user = users[id]; if (!user)` also finds properties inherited from `Object.prototype` | `GET /users/constructor` on an empty store answers 200 with no body | only stored ids are found; any other id answers 404 "User not found" | high (not executed) | `UserStore.GetAsWritten` | `UserStore.Get` |
| server.js:94-115 | `const existingUser = users[id]; if (!existingUser)` also finds inherited properties, and the merge then writes a record built from the inherited function | `PUT /users/constructor` with body `{}` on an empty store answers 200 and stores `{name: "Object"}`, without an `id`, under the key `constructor` | only stored ids are found; any other id answers 404 "User not found" | high (not executed) | `UserStore.UpdateAsWritten` | `UserStore.Update` |
| server.js:94-110 | the record is read before `await parseRequestBody(req)` and written back after it | `PUT /users/X` whose body is still arriving when `DELETE /users/X` completes answers 200 and puts X back | a PUT of a user deleted in the meantime answers 404 "User not found" and changes nothing | medium (not executed) | `UserStore.UpdateAcrossBodyRead` | `UserStore.Update` |
| server.js:130-135 | `if (!users[id])` looks the id up on a plain object, so it also finds properties inherited from `Object.prototype` (`constructor`, `toString`, `__proto__`, …) | `DELETE /users/constructor` on an empty store answers 200 "User deleted successfully" and removes nothing | only ids the store holds are found; any other id answers 404 "User not found" | high (not executed) | `UserStore.DeleteAsWritten` | `UserStore.Delete` |
