/** The route table of `/api/users`: routes are registered on a router one
    after another, and a request goes to the first registered route whose
    method and path pattern it matches. A request path is given already
    split into its segments. */
module UserRoutes {
  import opened Common

  datatype Verb = Get | Post | Put | Delete

  /** A segment of a path pattern: fixed text, or a `:name` parameter that
      matches any one non-empty segment. */
  datatype Segment = Literal(text: string) | Param(name: string)

  datatype Handler = CreateUser | GetUsers | GetUserById | UpdateUser | DeleteUser | ExportToCsv

  /** A registered route: the method, the pattern, the form field of a
      single-file upload run before the handler (if any), the handler. */
  datatype Route = Route(verb: Verb, pattern: seq<Segment>, upload: Option<string>, handler: Handler)

  /** Where a request goes: the handler, its upload field and the route
      parameters bound from the path. */
  datatype Dispatched = Dispatched(handler: Handler, upload: Option<string>, params: seq<(string, string)>)

  /** A router made without the `caseSensitive` option compares fixed text
      without regard to letter case; the fixed segments here are ASCII, for
      which ASCII case folding is exact. */
  predicate SegmentMatches(p: Segment, s: string) {
    match p
    case Literal(t) => Lower(s) == Lower(t)
    case Param(_) => s != ""
  }

  predicate PatternMatches(pattern: seq<Segment>, path: seq<string>) {
    |pattern| == |path| && forall i :: 0 <= i < |path| ==> SegmentMatches(pattern[i], path[i])
  }

  predicate Handles(r: Route, verb: Verb, path: seq<string>) {
    r.verb == verb && PatternMatches(r.pattern, path)
  }

  /** The parameters a pattern binds from a path it matches, in order. */
  function Params(pattern: seq<Segment>, path: seq<string>): seq<(string, string)>
    requires |pattern| == |path|
  {
    if pattern == [] then []
    else
      (match pattern[0] case Param(name) => [(name, path[0])] case Literal(_) => [])
      + Params(pattern[1..], path[1..])
  }

  /** The position of the first route that handles the request. */
  function FirstMatch(routes: seq<Route>, verb: Verb, path: seq<string>): (r: Option<nat>)
    ensures r.Some? ==> r.value < |routes| && Handles(routes[r.value], verb, path)
    ensures r.Some? ==> forall j :: 0 <= j < r.value ==> !Handles(routes[j], verb, path)
    ensures r.None? ==> forall j :: 0 <= j < |routes| ==> !Handles(routes[j], verb, path)
  {
    if routes == [] then None
    else if Handles(routes[0], verb, path) then Some(0)
    else match FirstMatch(routes[1..], verb, path)
      case None => None
      case Some(k) => Some(k + 1)
  }

  /** The dispatch of a request; None falls through to the application's
      not-found handling. */
  function Dispatch(routes: seq<Route>, verb: Verb, path: seq<string>): Option<Dispatched> {
    match FirstMatch(routes, verb, path)
    case None => None
    case Some(i) =>
      var r := routes[i];
      Some(Dispatched(r.handler, r.upload, Params(r.pattern, path)))
  }

  const ExportPattern := [Literal("export"), Literal("csv")]
  const RootPattern: seq<Segment> := []
  const IdPattern := [Param("id")]
  const ImageField := "profileImage"

  /** The routes in the order they are registered. */
  const UserRouteTable := [
    Route(Get, ExportPattern, None, ExportToCsv),
    Route(Get, RootPattern, None, GetUsers),
    Route(Post, RootPattern, Some(ImageField), CreateUser),
    Route(Get, IdPattern, None, GetUserById),
    Route(Put, IdPattern, Some(ImageField), UpdateUser),
    Route(Delete, IdPattern, None, DeleteUser)
  ]

  /** A router: the routes registered so far, in order. */
  class Router {
    var routes: seq<Route>

    constructor ()
      ensures routes == []
    {
      routes := [];
    }

    /** `router.<verb>(pattern, [upload,] handler)`: appends one route. */
    method Register(verb: Verb, pattern: seq<Segment>, upload: Option<string>, handler: Handler)
      modifies this
      ensures routes == old(routes) + [Route(verb, pattern, upload, handler)]
    {
      routes := routes + [Route(verb, pattern, upload, handler)];
    }
  }

  /** The registrations of the user routes, export first. */
  method BuildUserRouter() returns (router: Router)
    ensures fresh(router)
    ensures router.routes == UserRouteTable
  {
    router := new Router();
    router.Register(Get, ExportPattern, None, ExportToCsv);
    router.Register(Get, RootPattern, None, GetUsers);
    router.Register(Post, RootPattern, Some(ImageField), CreateUser);
    router.Register(Get, IdPattern, None, GetUserById);
    router.Register(Put, IdPattern, Some(ImageField), UpdateUser);
    router.Register(Delete, IdPattern, None, DeleteUser);
  }

  /** The route at i decides the request when it handles it and no earlier
      route does. */
  lemma FirstMatchIs(routes: seq<Route>, verb: Verb, path: seq<string>, i: nat)
    requires i < |routes| && Handles(routes[i], verb, path)
    requires forall j :: 0 <= j < i ==> !Handles(routes[j], verb, path)
    ensures FirstMatch(routes, verb, path) == Some(i)
  {}

  /** The route that decides a request, if any. */
  function Decider(routes: seq<Route>, verb: Verb, path: seq<string>): Option<Route> {
    match FirstMatch(routes, verb, path)
    case None => None
    case Some(i) => Some(routes[i])
  }

  lemma DispatchByDecider(a: seq<Route>, b: seq<Route>, verb: Verb, path: seq<string>)
    requires Decider(a, verb, path) == Decider(b, verb, path)
    ensures Dispatch(a, verb, path) == Dispatch(b, verb, path)
  {}

  /** A route that handles the request decides it from the end of a table
      none of whose other routes handles it. */
  lemma DecidedAtEnd(r: Route, rest: seq<Route>, verb: Verb, path: seq<string>)
    requires Handles(r, verb, path)
    requires forall j :: 0 <= j < |rest| ==> !Handles(rest[j], verb, path)
    ensures Decider(rest + [r], verb, path) == Some(r)
  {
    var back := rest + [r];
    assert forall j :: 0 <= j < |rest| ==> back[j] == rest[j];
    FirstMatchIs(back, verb, path, |rest|);
  }

  /** A route that does not handle the request does not change who decides
      it, whether put in front of a table or behind it. */
  lemma DeciderSkips(r: Route, rest: seq<Route>, verb: Verb, path: seq<string>)
    requires !Handles(r, verb, path)
    ensures Decider([r] + rest, verb, path) == Decider(rest, verb, path)
    ensures Decider(rest + [r], verb, path) == Decider(rest, verb, path)
  {
    var front, back := [r] + rest, rest + [r];
    assert front[1..] == rest;
    match FirstMatch(rest, verb, path)
    case Some(k) =>
      assert back[k] == rest[k];
      assert forall j :: 0 <= j < k ==> back[j] == rest[j];
      FirstMatchIs(back, verb, path, k);
    case None =>
      assert forall j :: 0 <= j < |back| ==> !Handles(back[j], verb, path) by {
        forall j | 0 <= j < |back| ensures !Handles(back[j], verb, path) {
          if j < |rest| { assert back[j] == rest[j]; }
        }
      }
  }

  /** Moving a route from the front of a table to its end changes no
      dispatch when no request is handled both by it and by another route. */
  lemma MoveToEnd(r: Route, rest: seq<Route>, verb: Verb, path: seq<string>)
    requires Handles(r, verb, path) ==> forall j :: 0 <= j < |rest| ==> !Handles(rest[j], verb, path)
    ensures Dispatch([r] + rest, verb, path) == Dispatch(rest + [r], verb, path)
  {
    if Handles(r, verb, path) {
      FirstMatchIs([r] + rest, verb, path, 0);
      DecidedAtEnd(r, rest, verb, path);
    } else {
      DeciderSkips(r, rest, verb, path);
    }
    DispatchByDecider([r] + rest, rest + [r], verb, path);
  }

  /** GET /export/csv, in any letter case, reaches the export handler,
      with no parameters. */
  lemma ExportDispatch(a: string, b: string)
    requires Lower(a) == Lower("export") && Lower(b) == Lower("csv")
    ensures Dispatch(UserRouteTable, Get, [a, b]) == Some(Dispatched(ExportToCsv, None, []))
  {
    assert PatternMatches(ExportPattern, [a, b]);
    FirstMatchIs(UserRouteTable, Get, [a, b], 0);
    assert Params(ExportPattern, [a, b]) == [] by {
      assert Params(ExportPattern[1..], [a, b][1..]) == [] by {
        assert Params(ExportPattern[2..], [a, b][2..]) == [];
      }
    }
  }

  /** GET / lists the users; POST / creates one after a single-file upload
      of field "profileImage". */
  lemma RootDispatch()
    ensures Dispatch(UserRouteTable, Get, []) == Some(Dispatched(GetUsers, None, []))
    ensures Dispatch(UserRouteTable, Post, []) == Some(Dispatched(CreateUser, Some("profileImage"), []))
  {
    FirstMatchIs(UserRouteTable, Get, [], 1);
    FirstMatchIs(UserRouteTable, Post, [], 2);
  }

  /** Any one non-empty segment is an id: GET, PUT and DELETE reach the
      get, update and delete handlers with `id` bound to it, only PUT takes
      an upload, and POST on an id reaches no route. */
  lemma IdDispatch(s: string)
    requires s != ""
    ensures Dispatch(UserRouteTable, Get, [s]) == Some(Dispatched(GetUserById, None, [("id", s)]))
    ensures Dispatch(UserRouteTable, Put, [s]) == Some(Dispatched(UpdateUser, Some("profileImage"), [("id", s)]))
    ensures Dispatch(UserRouteTable, Delete, [s]) == Some(Dispatched(DeleteUser, None, [("id", s)]))
    ensures Dispatch(UserRouteTable, Post, [s]) == None
  {
    assert PatternMatches(IdPattern, [s]);
    FirstMatchIs(UserRouteTable, Get, [s], 3);
    FirstMatchIs(UserRouteTable, Put, [s], 4);
    FirstMatchIs(UserRouteTable, Delete, [s], 5);
    assert Params(IdPattern, [s]) == [("id", s)];
  }

  /** No path matches both the export pattern and the id pattern: `:id`
      stands for exactly one segment. */
  lemma ExportAndIdDisjoint(path: seq<string>)
    ensures !(PatternMatches(ExportPattern, path) && PatternMatches(IdPattern, path))
  {}

  /** The table with the export route registered after the id routes. */
  const IdFirstTable := UserRouteTable[1..] + [UserRouteTable[0]]

  /** Because no other route shares a request with the export route,
      registering it last dispatches every request exactly as registering it
      first does. */
  lemma ExportOrderIrrelevant(verb: Verb, path: seq<string>)
    ensures Dispatch(UserRouteTable, verb, path) == Dispatch(IdFirstTable, verb, path)
  {
    var rest := UserRouteTable[1..];
    assert UserRouteTable == [UserRouteTable[0]] + rest;
    if Handles(UserRouteTable[0], verb, path) {
      assert |path| == 2;
      forall j | 0 <= j < |rest| ensures !Handles(rest[j], verb, path) {
        assert |rest[j].pattern| < 2;
      }
    }
    MoveToEnd(UserRouteTable[0], rest, verb, path);
  }
}
