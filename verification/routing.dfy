/**
  Request dispatch: the handler splits the URL on `/`, drops the empty pieces
  (`req.url.split('/').filter(Boolean)`), and picks one of six outcomes from
  the method together with either the exact URL or the first two pieces.
 */
module Routing {
  import opened Options

  /** `s.split(sep)` in JavaScript: the pieces between separators, always at
      least one, empty pieces included. */
  function SplitOn(s: string, sep: char): (parts: seq<string>)
    ensures |parts| >= 1
    ensures forall i :: 0 <= i < |parts| ==> sep !in parts[i]
    decreases |s|
  {
    if |s| == 0 then [""]
    else
      var rest := SplitOn(s[1..], sep);
      if s[0] == sep then [""] + rest
      else [[s[0]] + rest[0]] + rest[1..]
  }

  /** `parts.join(sep)`, the inverse of `SplitOn`. */
  function Join(parts: seq<string>, sep: char): (s: string)
    requires |parts| >= 1
    decreases |parts|
  {
    if |parts| == 1 then parts[0]
    else parts[0] + [sep] + Join(parts[1..], sep)
  }

  lemma {:induction false} JoinSplitOn(s: string, sep: char)
    ensures Join(SplitOn(s, sep), sep) == s
    decreases |s|
  {
    if |s| > 0 {
      var rest := SplitOn(s[1..], sep);
      JoinSplitOn(s[1..], sep);
      if s[0] == sep {
        assert Join(SplitOn(s, sep), sep) == "" + [sep] + Join(rest, sep);
      } else {
        var parts := [[s[0]] + rest[0]] + rest[1..];
        if |rest| == 1 {
          assert Join(parts, sep) == [s[0]] + rest[0];
        } else {
          assert parts[1..] == rest[1..];
          assert Join(parts, sep) == [s[0]] + rest[0] + [sep] + Join(rest[1..], sep);
        }
      }
      assert s == [s[0]] + s[1..];
    }
  }

  /** Splitting a separator-free word followed by more text. */
  lemma {:induction false} SplitOnWord(w: string, tail: string, sep: char)
    requires sep !in w
    ensures SplitOn(w + tail, sep) == [w + SplitOn(tail, sep)[0]] + SplitOn(tail, sep)[1..]
    decreases |w|
  {
    if |w| > 0 {
      var p := SplitOn(tail, sep);
      var rest := SplitOn(w[1..] + tail, sep);
      SplitOnWord(w[1..], tail, sep);
      assert rest[0] == w[1..] + p[0];
      assert rest[1..] == p[1..];
      assert (w + tail)[0] == w[0] != sep;
      assert (w + tail)[1..] == w[1..] + tail;
      assert SplitOn(w + tail, sep) == [[w[0]] + rest[0]] + rest[1..];
      assert [w[0]] + (w[1..] + p[0]) == w + p[0];
    } else {
      var p := SplitOn(tail, sep);
      assert w + tail == tail;
      assert w + p[0] == p[0];
      assert p == [p[0]] + p[1..];
    }
  }

  lemma {:induction false} SplitOnJoin(parts: seq<string>, sep: char)
    requires |parts| >= 1
    requires forall i :: 0 <= i < |parts| ==> sep !in parts[i]
    ensures SplitOn(Join(parts, sep), sep) == parts
    decreases |parts|
  {
    if |parts| == 1 {
      SplitOnWord(parts[0], "", sep);
      assert parts[0] + "" == parts[0];
    } else {
      var tail := Join(parts[1..], sep);
      SplitOnJoin(parts[1..], sep);
      SplitOnWord(parts[0], [sep] + tail, sep);
      assert ([sep] + tail)[1..] == tail;
      assert SplitOn([sep] + tail, sep) == [""] + parts[1..];
      assert parts[0] + [sep] + tail == parts[0] + ([sep] + tail);
      assert parts[0] + "" == parts[0];
      assert parts == [parts[0]] + parts[1..];
    }
  }

  /** `.filter(Boolean)` on a list of strings: the non-empty ones, in order. */
  function DropEmpty(xs: seq<string>): (r: seq<string>)
    ensures |r| <= |xs|
    ensures forall i :: 0 <= i < |r| ==> r[i] != ""
    ensures forall x :: x in r <==> x in xs && x != ""
  {
    if |xs| == 0 then []
    else if xs[0] == "" then DropEmpty(xs[1..])
    else [xs[0]] + DropEmpty(xs[1..])
  }

  /** The non-empty `/`-separated pieces of a URL. */
  function Segments(url: string): (parts: seq<string>)
    ensures forall i :: 0 <= i < |parts| ==> parts[i] != "" && '/' !in parts[i]
  {
    var pieces := SplitOn(url, '/');
    var parts := DropEmpty(pieces);
    assert forall i :: 0 <= i < |parts| ==> parts[i] in pieces;
    parts
  }

  /** Splitting at a separator that follows a separator-free word. */
  lemma SplitOnSep(w: string, tail: string, sep: char)
    requires sep !in w
    ensures SplitOn(w + [sep] + tail, sep) == [w] + SplitOn(tail, sep)
  {
    SplitOnWord(w, [sep] + tail, sep);
    assert ([sep] + tail)[0] == sep;
    assert ([sep] + tail)[1..] == tail;
    assert SplitOn([sep] + tail, sep) == [""] + SplitOn(tail, sep);
    assert w + [sep] + tail == w + ([sep] + tail);
    assert w + "" == w;
  }

  lemma {:induction false} DropEmptyConcat(xs: seq<string>, ys: seq<string>)
    ensures DropEmpty(xs + ys) == DropEmpty(xs) + DropEmpty(ys)
    decreases |xs|
  {
    if |xs| > 0 {
      DropEmptyConcat(xs[1..], ys);
      assert (xs + ys)[1..] == xs[1..] + ys;
    } else {
      assert xs + ys == ys;
    }
  }

  /** The pieces of `/users/` followed by any text. */
  lemma SplitUserPath(tail: string)
    ensures SplitOn("/users/" + tail, '/') == ["", "users"] + SplitOn(tail, '/')
  {
    assert "/users/" + tail == "" + ['/'] + ("users" + ['/'] + tail);
    SplitOnSep("", "users" + ['/'] + tail, '/');
    SplitOnSep("users", tail, '/');
  }

  /** `.filter(Boolean)` keeps every non-empty piece as often as it occurs
      and drops every empty one. */
  lemma {:induction false} DropEmptyCounts(xs: seq<string>)
    ensures multiset(DropEmpty(xs)) == multiset(xs)["" := 0]
    decreases |xs|
  {
    if |xs| > 0 {
      DropEmptyCounts(xs[1..]);
      assert xs == [xs[0]] + xs[1..];
      assert multiset(xs) == multiset{xs[0]} + multiset(xs[1..]);
    }
  }

  /** A list without empty strings passes `.filter(Boolean)` unchanged. */
  lemma {:induction false} DropEmptyKeepsNonEmpty(xs: seq<string>)
    requires forall i :: 0 <= i < |xs| ==> xs[i] != ""
    ensures DropEmpty(xs) == xs
    decreases |xs|
  {
    if |xs| > 0 {
      DropEmptyKeepsNonEmpty(xs[1..]);
      assert xs == [xs[0]] + xs[1..];
    }
  }

  /** The segments of a URL are exactly its non-empty pieces, in order: for
      any non-empty, `/`-free words, `/w1/w2/.../wn` yields `[w1, ..., wn]`. */
  lemma SegmentsOfJoin(ws: seq<string>)
    requires |ws| >= 1
    requires forall i :: 0 <= i < |ws| ==> ws[i] != "" && '/' !in ws[i]
    ensures Segments("/" + Join(ws, '/')) == ws
  {
    var joined := Join(ws, '/');
    var url := "/" + joined;
    assert url == "" + ['/'] + joined;
    SplitOnSep("", joined, '/');
    SplitOnJoin(ws, '/');
    var pieces := [""] + ws;
    assert SplitOn(url, '/') == pieces;
    DropEmptyConcat([""], ws);
    assert DropEmpty([""]) == [] by {
      assert [""][1..] == [];
    }
    DropEmptyKeepsNonEmpty(ws);
    assert DropEmpty(pieces) == ws;
  }

  /** The segments of `/users/<id>` for an id with no `/`. */
  lemma SegmentsOfUserPath(id: string)
    requires id != "" && '/' !in id
    ensures Segments("/users/" + id) == ["users", id]
  {
    SplitUserPath(id);
    SplitOnWord(id, "", '/');
    assert id + "" == id;
    DropEmptyConcat(["", "users"], [id]);
    assert DropEmpty(["", "users"]) == ["users"] by {
      assert ["", "users"][1..] == ["users"];
      assert ["users"][1..] == [];
    }
    assert DropEmpty([id]) == [id] by {
      assert [id][1..] == [];
    }
  }

  /** The six outcomes of dispatch. */
  datatype Route =
    | CreateUser
    | ListUsers
    | GetUser(id: string)
    | UpdateUser(id: string)
    | DeleteUser(id: string)
    | NoRoute

  /** The id of a by-id route: `urlParts[1]` when `urlParts[0] === 'users'`;
      a present piece is never empty and so always truthy. */
  function UserId(url: string): (r: Option<string>)
    ensures r.Some? <==> |Segments(url)| >= 2 && Segments(url)[0] == "users"
    ensures r.Some? ==> r.value == Segments(url)[1] && r.value != "" && '/' !in r.value
  {
    var parts := Segments(url);
    if |parts| >= 2 && parts[0] == "users" then Some(parts[1]) else None
  }

  /** The `if`/`else if` chain of the request handler, in its order. */
  function Dispatch(verb: string, url: string): (r: Route)
    ensures r == CreateUser <==> verb == "POST" && url == "/users"
    ensures r == ListUsers <==> verb == "GET" && url == "/users"
    ensures r.GetUser? <==> verb == "GET" && url != "/users" && UserId(url).Some?
    ensures r.UpdateUser? <==> verb == "PUT" && UserId(url).Some?
    ensures r.DeleteUser? <==> verb == "DELETE" && UserId(url).Some?
    ensures r.GetUser? || r.UpdateUser? || r.DeleteUser? ==> Some(r.id) == UserId(url)
  {
    if verb == "POST" && url == "/users" then CreateUser
    else if verb == "GET" && url == "/users" then ListUsers
    else match UserId(url)
      case None => NoRoute
      case Some(id) =>
        if verb == "GET" then GetUser(id)
        else if verb == "PUT" then UpdateUser(id)
        else if verb == "DELETE" then DeleteUser(id)
        else NoRoute
  }

  /** `/users/` has the single segment `users`, so no by-id route matches it
      and only the exact string `/users` lists the users. */
  lemma TrailingSlashMatchesNothing()
    ensures Dispatch("GET", "/users/") == NoRoute
    ensures Dispatch("POST", "/users/") == NoRoute
  {
  }

  /** Segments after the id are ignored: `/users/<id>/<more>` addresses user
      `<id>` whatever follows the second `/`. */
  lemma ExtraSegmentsAreIgnored(id: string, more: string)
    requires id != "" && '/' !in id
    ensures Dispatch("GET", "/users/" + id + "/" + more) == GetUser(id)
    ensures Dispatch("PUT", "/users/" + id + "/" + more) == UpdateUser(id)
    ensures Dispatch("DELETE", "/users/" + id + "/" + more) == DeleteUser(id)
  {
    var url := "/users/" + id + "/" + more;
    assert url == "/users/" + (id + ['/'] + more);
    SplitUserPath(id + ['/'] + more);
    SplitOnSep(id, more, '/');
    var rest := SplitOn(more, '/');
    assert SplitOn(url, '/') == ["", "users", id] + rest;
    DropEmptyConcat(["", "users", id], rest);
    assert DropEmpty(["", "users", id]) == ["users", id] by {
      assert [id][1..] == [];
      assert DropEmpty([id]) == [id];
      assert ["users", id][1..] == [id];
      assert DropEmpty(["users", id]) == ["users", id];
      assert ["", "users", id][1..] == ["users", id];
    }
    assert Segments(url)[..2] == ["users", id];
    assert url != "/users";
  }
}
