/**
  The dispatcher of the comments server: an if/else chain on the request's method
  and url that hands every request to exactly one handler. Urls are compared as whole
  strings, so there is no prefix, parameter or query-string matching.
 */
module CommentsRouter {

  datatype Handler = GetHome | GetHtml | GetText | GetComments | PostComments | NotFound

  /** A route: method and url that must both match exactly, and the handler they select. */
  datatype Entry = Entry(verb: string, url: string, handler: Handler)

  /** The routes the chain tests, in its order. */
  const Routes: seq<Entry> := [
    Entry("GET", "/", GetHome),
    Entry("GET", "/html", GetHtml),
    Entry("GET", "/text", GetText),
    Entry("GET", "/comments", GetComments),
    Entry("POST", "/comments", PostComments)
  ]

  /** First route of the table that matches exactly; NotFound when none does. */
  function Lookup(routes: seq<Entry>, verb: string, url: string): (h: Handler)
    ensures h == NotFound <==> forall k :: 0 <= k < |routes| ==>
                                 routes[k].verb != verb || routes[k].url != url || routes[k].handler == NotFound
  {
    if routes == [] then NotFound
    else if routes[0].verb == verb && routes[0].url == url && routes[0].handler != NotFound then routes[0].handler
    else Lookup(routes[1..], verb, url)
  }

  /** The request handler passed to createServer. */
  function Dispatch(verb: string, url: string): (h: Handler)
    ensures h != NotFound <==> exists k :: 0 <= k < |Routes| && Routes[k].verb == verb && Routes[k].url == url
    ensures forall k :: 0 <= k < |Routes| && Routes[k].verb == verb && Routes[k].url == url ==> h == Routes[k].handler
  {
    if verb == "GET" && url == "/" then assert Routes[0].url == url; GetHome
    else if verb == "GET" && url == "/html" then assert Routes[1].url == url; GetHtml
    else if verb == "GET" && url == "/text" then assert Routes[2].url == url; GetText
    else if verb == "GET" && url == "/comments" then assert Routes[3].url == url; GetComments
    else if verb == "POST" && url == "/comments" then assert Routes[4].url == url; PostComments
    else NotFound
  }

  /** No two routes share a method and url, so the order of the chain does not matter. */
  lemma RoutesUnambiguous()
    ensures forall i, j :: 0 <= i < j < |Routes| ==>
              Routes[i].verb != Routes[j].verb || Routes[i].url != Routes[j].url
  {
  }

  /** The chain selects what a lookup in the route table selects. */
  lemma DispatchIsLookup(verb: string, url: string)
    ensures Dispatch(verb, url) == Lookup(Routes, verb, url)
  {
    var r1 := Routes[1..];
    var r2 := r1[1..];
    var r3 := r2[1..];
    var r4 := r3[1..];
    assert r4[1..] == [];
    assert Lookup(r4, verb, url) == if verb == "POST" && url == "/comments" then PostComments else NotFound;
    assert Lookup(r3, verb, url) == if verb == "GET" && url == "/comments" then GetComments else Lookup(r4, verb, url);
    assert Lookup(r2, verb, url) == if verb == "GET" && url == "/text" then GetText else Lookup(r3, verb, url);
    assert Lookup(r1, verb, url) == if verb == "GET" && url == "/html" then GetHtml else Lookup(r2, verb, url);
  }

  /** Requests that resemble a route but do not match it exactly are not found. */
  lemma NearMissesNotFound()
    ensures Dispatch("POST", "/") == NotFound
    ensures Dispatch("GET", "/comments/") == NotFound
    ensures Dispatch("GET", "/comments?page=2") == NotFound
    ensures Dispatch("GET", "/html/") == NotFound
    ensures Dispatch("PUT", "/comments") == NotFound
    ensures Dispatch("get", "/") == NotFound
  {
  }
}
