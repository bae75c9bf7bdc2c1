/**
 The two routers (routes/users.js, routes/profiles.js): which handler serves
 which method and path, and which of them sit behind `ensureAuthenticated`.
 A request is dispatched to the first route of its router that matches, as
 Express does. An `OPTIONS` request on a routed path that reaches a router gets the
 router's own 200 with the methods routed there; any other request no route matches
 gets Express's own 404. In the server, `cors()` answers every `OPTIONS` first.
 */
module Routes {
  import opened Options
  import opened Documents
  import opened Http
  import Auth
  import Users
  import Profiles
  import Identity

  /** An HTTP method. `OtherVerb` stands for the methods other than the four; a value
      such as `OtherVerb("GET")` describes no request. */
  datatype Verb = Get | Post | Put | Delete | OtherVerb(name: string)

  /** The path below the router's mount point: `/`, `/:id`, or anything deeper. The id
      of `/:id` is a non-empty segment, so `Member("")` describes no request (that path
      is `Root`). */
  datatype Path = Root | Member(id: string) | Elsewhere

  datatype Pattern = CollectionPath | MemberPath

  datatype Action = List | Show | Create | Update | Destroy

  datatype Route = Route(verb: Verb, pattern: Pattern, guarded: bool, action: Action)

  /** A request as the router sees it; whether its session restored a user is
      `authenticated`. */
  datatype Request = Request(verb: Verb, path: Path, body: Body, authenticated: bool)

  /** The route table of the users router, in declaration order. */
  const UserRoutes: seq<Route> := [
    Route(Get, CollectionPath, false, List),
    Route(Get, MemberPath, false, Show),
    Route(Post, CollectionPath, true, Create),
    Route(Put, MemberPath, true, Update),
    Route(Delete, MemberPath, true, Destroy)]

  /** The route table of the profiles router, in declaration order. */
  const ProfileRoutes: seq<Route> := [
    Route(Get, CollectionPath, false, List),
    Route(Get, MemberPath, false, Show),
    Route(Post, CollectionPath, true, Create),
    Route(Put, MemberPath, true, Update),
    Route(Delete, MemberPath, true, Destroy)]

  predicate PatternMatches(pattern: Pattern, path: Path) {
    match pattern
    case CollectionPath => path.Root?
    case MemberPath => path.Member?
  }

  predicate RouteMatches(route: Route, verb: Verb, path: Path) {
    route.verb == verb && PatternMatches(route.pattern, path)
  }

  /** The first route of `table` that matches. */
  function FindRoute(table: seq<Route>, verb: Verb, path: Path): (r: Option<Route>)
    ensures r.Some? ==> r.value in table && RouteMatches(r.value, verb, path)
    ensures r.None? ==> forall route :: route in table ==> !RouteMatches(route, verb, path)
  {
    if |table| == 0 then None
    else if RouteMatches(table[0], verb, path) then Some(table[0])
    else FindRoute(table[1..], verb, path)
  }

  /** The method's name as Express writes it. */
  function VerbName(v: Verb): string {
    match v
    case Get => "GET"
    case Post => "POST"
    case Put => "PUT"
    case Delete => "DELETE"
    case OtherVerb(name) => name
  }

  /** `OPTIONS` on a path that some route pattern covers. */
  predicate IsOptions(req: Request) {
    req.verb == OtherVerb("OPTIONS") && (req.path.Root? || req.path.Member?)
  }

  /** The methods of the routes of `table` on `path`, in declaration order: the list
      Express's router answers an unrouted `OPTIONS` with. */
  function AllowedVerbs(table: seq<Route>, path: Path): (names: seq<string>)
    ensures forall n :: n in names <==>
      exists route :: route in table && PatternMatches(route.pattern, path) && VerbName(route.verb) == n
  {
    if |table| == 0 then []
    else
      var rest := AllowedVerbs(table[1..], path);
      assert forall route :: route in table[1..] ==> route in table;
      assert forall route :: route in table ==> route == table[0] || route in table[1..];
      (if PatternMatches(table[0].pattern, path) then [VerbName(table[0].verb)] else []) + rest
  }

  /** A route's handler needs an `:id` exactly when it reads one. */
  predicate NeedsId(a: Action) {
    a.Show? || a.Update? || a.Destroy?
  }

  /** Every route of both tables is guarded exactly when it writes, and every
      handler that reads `:id` is mounted on `/:id`. */
  lemma TablesGuardOnlyWrites()
    ensures forall route :: route in UserRoutes ==> (route.guarded <==> route.verb != Get)
    ensures forall route :: route in ProfileRoutes ==> (route.guarded <==> route.verb != Get)
    ensures forall route :: route in UserRoutes + ProfileRoutes ==> (NeedsId(route.action) <==> route.pattern == MemberPath)
  {
  }

  /** The `Allow` lists of both routers: `/` offers GET and POST, `/:id` offers GET,
      PUT and DELETE. */
  lemma AllowLists()
    ensures AllowedVerbs(UserRoutes, Root) == AllowedVerbs(ProfileRoutes, Root) == ["GET", "POST"]
    ensures forall id :: AllowedVerbs(UserRoutes, Member(id)) == ["GET", "PUT", "DELETE"]
    ensures forall id :: AllowedVerbs(ProfileRoutes, Member(id)) == ["GET", "PUT", "DELETE"]
  {
    forall id ensures AllowedVerbs(UserRoutes, Member(id)) == ["GET", "PUT", "DELETE"] {
      var p := Member(id);
      assert AllowedVerbs(UserRoutes[4..], p) == ["DELETE"];
      assert AllowedVerbs(UserRoutes[3..], p) == ["PUT", "DELETE"];
      assert AllowedVerbs(UserRoutes[2..], p) == ["PUT", "DELETE"];
    }
  }

  function RunUserAction(action: Action, s: Store, req: Request, now: int, newId: Key): Reply
    requires NeedsId(action) ==> req.path.Member?
  {
    match action
    case List => Users.GetAllUsers(s)
    case Show => Users.GetUserById(s, req.path.id)
    case Create => Users.CreateUser(s, req.body, now, newId)
    case Update => Users.UpdateUser(s, req.path.id, req.body)
    case Destroy => Users.DeleteUser(s, req.path.id)
  }

  function RunProfileAction(action: Action, s: Store, req: Request, now: int, newId: Key): Reply
    requires NeedsId(action) ==> req.path.Member?
  {
    match action
    case List => Profiles.GetAllProfiles(s)
    case Show => Profiles.GetProfileById(s, req.path.id)
    case Create => Profiles.CreateProfile(s, req.body, now, newId)
    case Update => Profiles.UpdateProfile(s, req.path.id, req.body)
    case Destroy => Profiles.DeleteProfile(s, req.path.id)
  }

  /** The users router on the `users` collection. Reads reach their handler whatever
      the session; writes reach theirs only through the guard, so an unauthenticated
      request leaves the collection as it was. */
  function UsersRouter(s: Store, req: Request, now: int, newId: Key): (r: Reply)
    ensures !req.authenticated ==> r.store == s
    ensures !req.authenticated && IsWrite(req) ==> r.response == Error(401, Auth.NotAuthenticated)
    ensures req.verb == Get && req.path.Root? ==> r == Users.GetAllUsers(s)
    ensures req.verb == Get && req.path.Member? ==> r == Users.GetUserById(s, req.path.id)
    ensures req.authenticated && req.verb == Post && req.path.Root? ==> r == Users.CreateUser(s, req.body, now, newId)
    ensures req.authenticated && req.verb == Put && req.path.Member? ==> r == Users.UpdateUser(s, req.path.id, req.body)
    ensures req.authenticated && req.verb == Delete && req.path.Member? ==> r == Users.DeleteUser(s, req.path.id)
    ensures IsOptions(req) ==> r == Reply(Response(200, Allowed(AllowedVerbs(UserRoutes, req.path))), s)
    ensures !IsRead(req) && !IsWrite(req) && !IsOptions(req) ==> r == Reply(Response(404, NoRoute), s)
  {
    match FindRoute(UserRoutes, req.verb, req.path)
    case None =>
      assert UserRoutes[0] in UserRoutes && UserRoutes[1] in UserRoutes && UserRoutes[2] in UserRoutes && UserRoutes[3] in UserRoutes && UserRoutes[4] in UserRoutes;
      if IsOptions(req) then Reply(Response(200, Allowed(AllowedVerbs(UserRoutes, req.path))), s)
      else Reply(Response(404, NoRoute), s)
    case Some(route) =>
      if route.guarded then
        match Auth.EnsureAuthenticated(req.authenticated)
        case Halt(response) => Reply(response, s)
        case Next => RunUserAction(route.action, s, req, now, newId)
      else RunUserAction(route.action, s, req, now, newId)
  }

  /** The profiles router on the `history` collection, with the same access policy. */
  function ProfilesRouter(s: Store, req: Request, now: int, newId: Key): (r: Reply)
    ensures !req.authenticated ==> r.store == s
    ensures !req.authenticated && IsWrite(req) ==> r.response == Error(401, Auth.NotAuthenticated)
    ensures req.verb == Get && req.path.Root? ==> r == Profiles.GetAllProfiles(s)
    ensures req.verb == Get && req.path.Member? ==> r == Profiles.GetProfileById(s, req.path.id)
    ensures req.authenticated && req.verb == Post && req.path.Root? ==> r == Profiles.CreateProfile(s, req.body, now, newId)
    ensures req.authenticated && req.verb == Put && req.path.Member? ==> r == Profiles.UpdateProfile(s, req.path.id, req.body)
    ensures req.authenticated && req.verb == Delete && req.path.Member? ==> r == Profiles.DeleteProfile(s, req.path.id)
    ensures IsOptions(req) ==> r == Reply(Response(200, Allowed(AllowedVerbs(ProfileRoutes, req.path))), s)
    ensures !IsRead(req) && !IsWrite(req) && !IsOptions(req) ==> r == Reply(Response(404, NoRoute), s)
  {
    match FindRoute(ProfileRoutes, req.verb, req.path)
    case None =>
      assert ProfileRoutes[0] in ProfileRoutes && ProfileRoutes[1] in ProfileRoutes && ProfileRoutes[2] in ProfileRoutes && ProfileRoutes[3] in ProfileRoutes && ProfileRoutes[4] in ProfileRoutes;
      if IsOptions(req) then Reply(Response(200, Allowed(AllowedVerbs(ProfileRoutes, req.path))), s)
      else Reply(Response(404, NoRoute), s)
    case Some(route) =>
      if route.guarded then
        match Auth.EnsureAuthenticated(req.authenticated)
        case Halt(response) => Reply(response, s)
        case Next => RunProfileAction(route.action, s, req, now, newId)
      else RunProfileAction(route.action, s, req, now, newId)
  }

  /** The requests some route serves with a read: `GET /` and `GET /:id`. */
  predicate IsRead(req: Request) {
    req.verb == Get && (req.path.Root? || req.path.Member?)
  }

  /** The requests some route serves with a write: `POST /`, `PUT /:id`, `DELETE /:id`. */
  predicate IsWrite(req: Request) {
    (req.verb == Post && req.path.Root?) || ((req.verb == Put || req.verb == Delete) && req.path.Member?)
  }

  /** Both collections, and the router a request is sent to. */
  datatype Database = Database(users: Store, history: Store)

  datatype Mount = UsersMount | ProfilesMount

  /** The message of the catch-all error handler. */
  const ServerError := "Something went wrong!"

  /** The server: `cors()` ends every `OPTIONS` request with 204 before any router runs;
      any other request goes to the mounted router, which touches only its collection. */
  function Serve(db: Database, mount: Mount, req: Request, now: int, newId: Key): (r: (Response, Database))
    ensures req.verb == OtherVerb("OPTIONS") ==> r == (Response(204, NoContent), db)
    ensures mount.UsersMount? ==> r.1.history == db.history
    ensures mount.ProfilesMount? ==> r.1.users == db.users
  {
    if req.verb == OtherVerb("OPTIONS") then (Response(204, NoContent), db)
    else
    match mount
    case UsersMount =>
      var reply := UsersRouter(db.users, req, now, newId);
      (reply.response, db.(users := reply.store))
    case ProfilesMount =>
      var reply := ProfilesRouter(db.history, req, now, newId);
      (reply.response, db.(history := reply.store))
  }

  /** The server with passport's session step: `cors()` answers `OPTIONS` first; then the
      session is restored, and a failed lookup goes to `next(err)` and ends in the error
      handler's 500 with nothing changed; otherwise the request reaches its router as
      authenticated exactly when a user was restored. */
  function ServeSession(db: Database, mount: Mount, verb: Verb, path: Path, body: Body,
                        session: Option<string>, now: int, newId: Key): (r: (Response, Database))
    ensures verb == OtherVerb("OPTIONS") ==> r == (Response(204, NoContent), db)
    ensures verb != OtherVerb("OPTIONS") && session.Some? && !db.users.reachable ==>
      r == (Error(500, ServerError), db)
    ensures session.None? ==> r == Serve(db, mount, Request(verb, path, body, false), now, newId)
    ensures session.Some? && db.users.reachable ==>
      r == Serve(db, mount, Request(verb, path, body, Identity.HasGitHubId(db.users.entries, session.value)), now, newId)
  {
    var req := Request(verb, path, body, Identity.IsAuthenticated(db.users, session));
    if verb == OtherVerb("OPTIONS") then Serve(db, mount, req, now, newId)
    else if Identity.RestoreSession(db.users, session).SessionError? then (Error(500, ServerError), db)
    else Serve(db, mount, req, now, newId)
  }

  /** An unauthenticated request never changes either collection, and its outcome
      for a read is the one an authenticated request gets. */
  lemma UnauthenticatedChangesNothing(db: Database, mount: Mount, req: Request, now: int, newId: Key)
    requires !req.authenticated
    ensures Serve(db, mount, req, now, newId).1 == db
    ensures req.verb == Get ==>
      Serve(db, mount, req, now, newId) == Serve(db, mount, req.(authenticated := true), now, newId)
  {
  }

  /** A session whose record has been deleted since login counts as no session: a write
      sent with it is refused with 401 and changes nothing. When the lookup itself fails,
      the request ends in the error handler's 500 instead, also changing nothing. */
  lemma StaleSessionIsRefused(db: Database, mount: Mount, verb: Verb, path: Path, body: Body,
                              token: string, now: int, newId: Key)
    requires !Identity.HasGitHubId(db.users.entries, token)
    ensures var r := ServeSession(db, mount, verb, path, body, Some(token), now, newId);
      && r.1 == db
      && (db.users.reachable && IsWrite(Request(verb, path, body, false)) ==> r.0 == Error(401, Auth.NotAuthenticated))
      && (!db.users.reachable && verb != OtherVerb("OPTIONS") ==> r.0 == Error(500, ServerError))
  {
  }
}
