/**
  The request handler passed to `http.createServer`: dispatch on method and
  URL, then the matching store operation. Requests are applied one at a time,
  each to the store the previous one left behind.
 */
module Server {
  import opened Options
  import opened JsValues
  import opened Routing
  import opened UserStore

  /** A request as the handler sees it once its body has been read. */
  datatype Request = Request(verb: string, url: string, body: RawBody)

  const MsgNoRoute := "Route not found"

  /** One request. `freshId` stands for the value `uuidv4()` returns; only a
      successful create uses it. */
  function Handle(s: Store, req: Request, freshId: string): (o: Outcome)
    requires Valid(s)
    ensures Valid(o.store)
    ensures Dispatch(req.verb, req.url) == NoRoute ==> o == Reject(s, 404, MsgNoRoute)
    ensures o.response.status != 200 && o.response.status != 201 ==> o.store == s
    ensures o.store != s ==>
              Dispatch(req.verb, req.url).CreateUser? ||
              Dispatch(req.verb, req.url).UpdateUser? ||
              Dispatch(req.verb, req.url).DeleteUser?
    ensures Dispatch(req.verb, req.url) == ListUsers ==>
              o.store == s && o.response.status == 200 &&
              o.response.payload.Records? && |o.response.payload.users| == |s.users|
    ensures Dispatch(req.verb, req.url).GetUser? ==>
              o.store == s && o.response == Get(s, Dispatch(req.verb, req.url).id)
  {
    match Dispatch(req.verb, req.url)
    case CreateUser => Create(s, req.body, freshId)
    case ListUsers => Outcome(Response(200, Records(List(s))), s)
    case GetUser(id) => Outcome(Get(s, id), s)
    case UpdateUser(id) => Update(s, id, req.body)
    case DeleteUser(id) => Delete(s, id)
    case NoRoute => Reject(s, 404, MsgNoRoute)
  }

  /** The requests applied in order, each to the store the one before left;
      request `i` is given `ids[i]` as its fresh id. */
  function Replay(s: Store, reqs: seq<Request>, ids: seq<string>): (r: Store)
    requires Valid(s) && |ids| == |reqs|
    ensures Valid(r)
    decreases |reqs|
  {
    if |reqs| == 0 then s
    else Replay(Handle(s, reqs[0], ids[0]).store, reqs[1..], ids[1..])
  }

  /** A POST /users whose body passes every check of create. */
  predicate IsGoodCreate(req: Request) {
    && req.verb == "POST" && req.url == "/users"
    && ReadFields(req.body).Some?
    && Complete(ReadFields(req.body).value)
    && Email.EmailAccepts(ReadFields(req.body).value.email)
  }

  /** One successful create adds exactly its fresh id to the store's keys. */
  lemma GoodCreateAddsId(s: Store, req: Request, freshId: string)
    requires Valid(s) && IsGoodCreate(req)
    ensures Handle(s, req, freshId).store.users.Keys == s.users.Keys + {freshId}
  {
  }

  /** The first step of a replay that starts with a successful create. */
  lemma ReplayFirstCreate(s: Store, reqs: seq<Request>, ids: seq<string>) returns (next: Store)
    requires Valid(s) && |ids| == |reqs| > 0 && IsGoodCreate(reqs[0])
    ensures Valid(next)
    ensures next.users.Keys == s.users.Keys + {ids[0]}
    ensures Replay(s, reqs, ids) == Replay(next, reqs[1..], ids[1..])
  {
    next := Handle(s, reqs[0], ids[0]).store;
    GoodCreateAddsId(s, reqs[0], ids[0]);
  }

  lemma UnionRegroup(a: set<string>, x: string, b: set<string>, c: set<string>)
    requires c == {x} + b
    ensures (a + {x}) + b == a + c
  {
  }

  /** A run of successful creates adds exactly the ids handed out. */
  lemma {:induction false} CreatesStoreTheirIds(s: Store, reqs: seq<Request>, ids: seq<string>)
    requires Valid(s) && |ids| == |reqs|
    requires forall i :: 0 <= i < |reqs| ==> IsGoodCreate(reqs[i])
    ensures Replay(s, reqs, ids).users.Keys == s.users.Keys + SetOf(ids)
    decreases |reqs|
  {
    if |reqs| > 0 {
      var next := ReplayFirstCreate(s, reqs, ids);
      var rest := reqs[1..];
      assert forall i :: 0 <= i < |rest| ==> IsGoodCreate(rest[i]) by {
        forall i | 0 <= i < |rest| ensures IsGoodCreate(rest[i]) {
          assert rest[i] == reqs[i + 1];
        }
      }
      CreatesStoreTheirIds(next, rest, ids[1..]);
      SetOfFirst(ids);
      UnionRegroup(s.users.Keys, ids[0], SetOf(ids[1..]), SetOf(ids));
    } else {
      assert SetOf(ids) == {};
    }
  }

  /** After `n` successful creates with distinct ids, starting from the empty
      store, GET /users lists exactly `n` records. */
  lemma ListAfterCreates(reqs: seq<Request>, ids: seq<string>)
    requires |ids| == |reqs|
    requires forall i :: 0 <= i < |reqs| ==> IsGoodCreate(reqs[i])
    requires Distinct(ids)
    ensures |List(Replay(EmptyStore(), reqs, ids))| == |reqs|
  {
    var s := Replay(EmptyStore(), reqs, ids);
    CreatesStoreTheirIds(EmptyStore(), reqs, ids);
    DistinctSetSize(ids);
    assert |s.users| == |s.users.Keys|;
  }

  /** POST /users followed by GET /users/<new id> returns the created record. */
  lemma GetAfterCreate(s: Store, body: RawBody, freshId: string, otherId: string)
    requires Valid(s)
    requires freshId != "" && '/' !in freshId
    requires Handle(s, Request("POST", "/users", body), freshId).response.status == 201
    ensures
      var created := Handle(s, Request("POST", "/users", body), freshId);
      var read := Handle(created.store, Request("GET", "/users/" + freshId, EmptyBody), otherId);
      read.response == Response(200, Record(created.response.payload.user))
  {
    SegmentsOfUserPath(freshId);
    assert "/users/" + freshId != "/users";
  }

  /** DELETE /users/<id> followed by GET /users/<id> answers "User not found";
      so does a second DELETE. */
  lemma GetAndDeleteAfterDelete(s: Store, id: string, freshId: string)
    requires Valid(s)
    requires id != "" && '/' !in id
    ensures
      var url := "/users/" + id;
      var deleted := Handle(s, Request("DELETE", url, EmptyBody), freshId);
      && Handle(deleted.store, Request("GET", url, EmptyBody), freshId).response == Response(404, Message(MsgNotFound))
      && Handle(deleted.store, Request("DELETE", url, EmptyBody), freshId).response == Response(404, Message(MsgNotFound))
  {
    SegmentsOfUserPath(id);
    assert "/users/" + id != "/users";
  }

  /** An empty POST body stands for `{}`, so it fails the presence check. */
  lemma EmptyCreateBodyIsIncomplete(s: Store, freshId: string)
    requires Valid(s)
    ensures Handle(s, Request("POST", "/users", EmptyBody), freshId) == Reject(s, 400, MsgRequired)
  {
  }
}
