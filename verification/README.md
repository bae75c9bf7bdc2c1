# Users and profiles service: a Dafny model

This project models the decision logic of a small Express/MongoDB CRUD service with
GitHub login. It covers four parts:

- the users controller: list, fetch, create, partial update and delete on the `users`
  collection, with required fields, an e-mail pattern, enumerated `gender` and
  `ageGroup`, and e-mail uniqueness;
- the profiles controller: the same operations on the `history` collection, with four
  free-text fields and an ObjectId format check on the route id;
- the GitHub login configuration: the verify callback that finds or creates the local
  user, and the session codec that keeps only `githubId` and looks the user up again;
- the access policy: the `ensureAuthenticated` guard and the two route tables that put it
  in front of POST, PUT and DELETE only.

Each handler is a pure function from the collection and the request to the response and
the collection afterwards. A collection is a sequence of documents in natural order
(`Documents`), because `findOne` returns the first match. `Get` gives the map view from
`_id` to document. Whether the database can be reached is part of the store. The clock
(`new Date()`) and the `_id` the driver generates are parameters.

Files:

- `documents.dfy`: `Options`, and `Documents`, the collection model (`findOne`,
  `insertOne`, `updateOne` with `$set`, `deleteOne`).
- `object_ids.dfy`: `ObjectIds`, covering `ObjectId.isValid`, `new ObjectId` and `normalizeId`.
- `email_format.dfy`: `EmailFormat`, the e-mail rule in two forms, proved equal.
- `http.dfy`: `Http`, the request bodies, responses and handler replies.
- `users.dfy`: `Users`. `profiles.dfy`: `Profiles`.
- `identity.dfy`: `Identity`, the login callback and the session codec.
- `auth.dfy`: `Auth`. `routes.dfy`: `Routes`.
- `invariants.dfy`: `Invariants`, the properties that span several operations.

The e-mail pattern `^[^\s@]+@[^\s@]+\.[^\s@]+$` appears twice. `EmailFormat.MatchesPattern`
states it as a decomposition: an `@` with a non-empty part before it, a `.` that is
neither the first nor the last character of the part after it, and every other character
neither whitespace nor `@`. `EmailFormat.IsValidEmail` is a left-to-right scan, and the
handlers use it. Their equivalence is proved, so the handler contracts can speak in
terms of the pattern. JavaScript's `\s` is written out as the ECMAScript WhiteSpace and
LineTerminator code points.

Points of the code's behaviour that the model keeps:

- A first login without a disclosed e-mail stores the placeholder `no-email@github.com`
  (config/passport.js:24).
- `deserializeUser` passes `null`, not an error, when no record has the session's
  `githubId` (config/passport.js:47-48), so a stale session is simply anonymous.
- `updateUser` runs the e-mail conflict check before `updateOne` (controllers/users.js:127-144),
  so an update whose e-mail belongs to another record gets 400 even when no record has the id.

## Model

| member | source | states |
|---|---|---|
| ObjectIds.NormalizeId | controllers/users.js:5-10 | a valid id becomes an ObjectId key, any other string is kept as a string key |
| ObjectIds.NormalizeIdSameKey | controllers/users.js:5-10 | two route ids address the same document exactly when they are equal, or are both valid ObjectIds that differ only in letter case |
| EmailFormat.ValidEmailMatchesPattern | controllers/users.js:52-53 | the scan the handlers run accepts exactly the strings of the pattern: one `@`, non-empty local part, an inner `.` in the domain, no whitespace |
| EmailFormat.AcceptsPlainAddress | controllers/users.js:52-53 | `ann@example.com` is in the pattern's language |
| EmailFormat.RefusesDotlessDomain | controllers/users.js:52-53 | a domain with no dot is refused |
| EmailFormat.RefusesLeadingDot | controllers/users.js:115-116 | a dot directly after the `@` does not satisfy the rule |
| EmailFormat.RefusesSpace | controllers/users.js:115-116 | whitespace in the address is refused |
| Users.GetAllUsers | controllers/users.js:13-22 | 200 with the whole collection when the store is reachable, 500 otherwise; nothing changes |
| Users.GetUserById | controllers/users.js:25-41 | 200 with a stored record under the normalized id exactly when one exists, 404 when none does; nothing changes |
| Users.CreateCheck | controllers/users.js:46-65 | the first failing check in source order: required fields, then e-mail pattern, then gender, then age group; none fails exactly for a valid new user |
| Users.NewUserDoc | controllers/users.js:73-81 | the inserted record holds exactly the six body fields and `createdAt` |
| Users.CreateUser | controllers/users.js:44-88 | 201 exactly when the body is valid, the store is reachable, no record has the e-mail and the id is free; then exactly one record is appended; on any other outcome the collection is unchanged |
| Users.CreateUserRequiresAllFields | controllers/users.js:46-50 | any of the six fields missing or empty gives 400 "All fields are required" and no change |
| Users.ValidationPrecedesStore | controllers/users.js:46-124 | a body refused by the create or update checks gets the same 400 whatever the collection holds, and nothing changes |
| Users.UpdateCheck | controllers/users.js:96-124 | the first failing check in source order: gender, age group, e-mail, then "at least one field"; none fails exactly for a valid update |
| Users.Supplied | controllers/users.js:96-120 | the `$set` document holds exactly the truthy fields among the six, with the body's values |
| Users.UpdateUser | controllers/users.js:91-151 | 400 exactly for an invalid body or an e-mail held by another record; otherwise 404 exactly when the id is absent; on 204 only the supplied fields of the addressed record change and every other record and field is as before; non-204 leaves the collection unchanged |
| Users.UpdateUserNeedsAField | controllers/users.js:122-124 | an update supplying none of the six fields gets 400 "At least one field must be provided" and changes nothing |
| Users.UpdateKeepsOwnEmail | controllers/users.js:127-135 | re-sending the record's own e-mail is not a conflict: the update succeeds |
| Users.DeleteUser | controllers/users.js:154-170 | 204 exactly when a record has the normalized id, removing one record; 404 otherwise with no change |
| Profiles.GetAllProfiles | controllers/profiles.js:4-13 | 200 with the whole collection when reachable, 500 otherwise; nothing changes |
| Profiles.GetProfileById | controllers/profiles.js:15-29 | 400 exactly for an id that is not an ObjectId; on a reachable store 200 with the stored record exactly when one has the id, 404 exactly when none does; 500 otherwise; nothing changes |
| Profiles.NewProfileDoc | controllers/profiles.js:39-45 | the inserted record holds exactly the four body fields and `createdAt` |
| Profiles.CreateProfile | controllers/profiles.js:31-52 | 400 exactly when one of the four fields is missing or empty; 201 appends exactly one record; otherwise nothing changes |
| Profiles.Supplied | controllers/profiles.js:60-64 | the `$set` document holds exactly the truthy fields among the four |
| Profiles.UpdateProfile | controllers/profiles.js:54-81 | 400 exactly for a malformed id or no supplied field; otherwise, on a reachable store, 204 exactly when a record has the id and 404 exactly when none does; 500 on an unreachable one; on 204 only the supplied fields of that record change, and non-204 changes nothing |
| Profiles.UpdateProfileSetsExactly | controllers/profiles.js:69-76 | after an update the id's document is the old one with the supplied fields set, and every other id maps to the same record |
| Profiles.DeleteProfile | controllers/profiles.js:83-97 | 400 for a malformed id, 404 for an absent one, 204 removing one record otherwise; non-204 changes nothing |
| Profiles.InvalidIdRejectedFirst | controllers/profiles.js:18 | a malformed id is refused by fetch, update and delete even when the database cannot be reached |
| Profiles.DeleteProfileRemovesExactly | controllers/profiles.js:89-92 | after a delete the id is gone and every other id maps to the same record |
| Identity.Resolve | config/passport.js:11-35 | an existing record for the GitHub id is returned unchanged with nothing inserted; otherwise exactly one record is appended and returned; a store failure yields no user and no change |
| Identity.NewUserFallbacks | config/passport.js:21-26 | a new record's name is the display name or else the username, and its e-mail the first disclosed address or else `no-email@github.com` |
| Identity.OctocatExample | config/passport.js:23-24 | handle `octocat` with no display name and no e-mail gives name `octocat` and the placeholder e-mail |
| Identity.ResolveTwice | config/passport.js:17-29 | logging in again with the same account returns the same user and store, and a first login leaves exactly one record for the account |
| Identity.ReuseWithoutRefresh | config/passport.js:17-31 | a second login with a different e-mail returns the first record with its original e-mail |
| Identity.Serialize | config/passport.js:39-41 | the session token is the record's `githubId`, and only that; a missing or empty `githubId` gives no token, as passport fails serialization on a falsy id |
| Identity.Deserialize | config/passport.js:43-52 | a reachable store yields the record with the token's `githubId`, or null when there is none; an unreachable one yields an error |
| Identity.RestoreSession | config/passport.js:43-52 | a request is signed in exactly when it carries a token whose record exists, and then as the record that has the token's `githubId`; a stale token is anonymous, not an error |
| Identity.DeserializeSerialize | config/passport.js:39-48 | while the record exists and GitHub ids are unique, deserializing its token restores exactly that record |
| Identity.LoginThenRestore | config/passport.js:17-48 | after a successful login the token is the GitHub account id, and it restores the logged-in user; an empty account id yields no token |
| Invariants.CreateUserKeepsInvariants | controllers/users.js:67-83 | create keeps `_id`s unique, GitHub ids unique and e-mails unique |
| Invariants.UpdateUserKeepsInvariants | controllers/users.js:127-140 | update keeps `_id`s, GitHub ids and e-mails unique, since the conflict check excludes only the record itself |
| Invariants.DeleteUserKeepsInvariants | controllers/users.js:159-163 | delete keeps all three uniqueness properties |
| Invariants.DeleteUserRemovesExactly | controllers/users.js:159-165 | after a delete the id is gone, every other id maps to the same record, and the records left are exactly the others |
| Invariants.UpdateUserSetsExactly | controllers/users.js:137-146 | after an update the normalized id's document is the old one with the supplied fields set, and every other id maps to the same record |
| Invariants.ResolveKeepsInvariants | config/passport.js:17-29 | login keeps `_id`s and GitHub ids unique |
| Invariants.LoginsCanShareEmail | config/passport.js:21-27 | two logins without a disclosed e-mail leave two records with the same e-mail, so unique e-mail is a per-operation property of the controller only |
| Invariants.ProfileWritesKeepIdsUnique | controllers/profiles.js:38-92 | create, update and delete keep profile `_id`s unique |
| Auth.EnsureAuthenticated | middleware/auth.js:2-5 | an authenticated request passes on with no response of its own; any other ends with 401 `{error: "Not authenticated"}` |
| Routes.TablesGuardOnlyWrites | routes/users.js:7-13 | in both route tables a route is guarded exactly when it is not a GET |
| Routes.AllowedVerbs | routes/users.js:7-13 | the methods offered on a path are exactly those of the table's routes whose pattern covers it |
| Routes.AllowLists | routes/users.js:7-13 | `/` offers GET and POST, and `/:id` offers GET, PUT and DELETE, in both routers |
| Routes.UsersRouter | routes/users.js:7-13 | both GETs reach their handler whatever the session; POST, PUT and DELETE reach theirs only when authenticated, and otherwise get 401 with the collection unchanged; OPTIONS on a routed path gets 200 with the methods offered there; anything else gets 404 |
| Routes.ProfilesRouter | routes/profiles.js:8-13 | the same policy for the profiles router |
| Routes.Serve | server.js:16 | `cors()` answers every OPTIONS request with 204 before any router, changing nothing; other requests change only the mounted router's collection |
| Routes.UnauthenticatedChangesNothing | middleware/auth.js:3-4 | an unauthenticated request changes neither collection, and a GET gets what an authenticated one would |
| Routes.ServeSession | config/passport.js:43-51 | OPTIONS is answered by `cors()` first; a failed session lookup ends the request in the error handler's 500 with nothing changed; otherwise the request reaches its router as authenticated exactly when its token's record exists |
| Routes.StaleSessionIsRefused | config/passport.js:43-51 | a request whose session points at a deleted record is treated as unauthenticated: writes get 401 and nothing changes; if the lookup fails instead, the request gets 500 and nothing changes |

## Left out

- Express bootstrap, the CORS headers, body parsing, `listen` and shutdown (server.js) are I/O wiring. The catch-all error handler is modelled only for the one error that reaches it from this core: a failed session lookup, which `Routes.ServeSession` answers with 500. server.js mounts only the users router and never initialises passport. The model serves both routers as the route files declare. `Routes.Serve` takes "authenticated" as a flag on the request; `Routes.ServeSession` sets it as passport would. A `SessionError` never becomes that flag, because it aborts the request first.
- The connection cache of data/database.js is not modelled. An unreachable database is a flag on the store. Any store failure collapses into it: 500, or an error passed to `done`, with the collection unchanged. Each handler performs at most one write, so no partial effect is lost.
- The `_id` the driver generates is an input. When it collides with a stored `_id`, the insert fails as MongoDB's duplicate-key error would, which gives 500. Timestamps are an input too.
- `ObjectId.isValid` on a string is modelled as "24 hexadecimal digits", the behaviour of current bson releases. Older releases also accept any 12-character string; that case is not modelled.
- Request bodies are modelled as string-valued JSON fields. Numbers, booleans, arrays and objects in a body, and the string coercion the regex test would apply to them, are not modelled.
- The find-then-insert races in `createUser` and in the login callback are not modelled. All operations run one after another, so e-mail uniqueness and one record per GitHub account hold only under that assumption.
- The GitHub OAuth handshake, cookies and session expiry are not modelled. The model starts from an obtained GitHub profile and from a session token. No login, callback, logout or dashboard route exists in the routers or in server.js; the model covers only the guard and the two resource routers.
- `console.error` logging is not modelled, and neither are the exact messages of Express's own 404 page. Only its status is kept, as `NoRoute`.
- HEAD requests, which Express answers with the GET handlers, are not modelled, and so the `HEAD` that Express adds to an `Allow` list next to `GET` is left out of `Routes.AllowedVerbs`. The `Allow` header's text and the CORS headers `cors()` sets are not modelled; only the status and the method list are. URL decoding and trailing slashes in paths are not modelled either.
- Identity.Resolve: returns the stored record. For a profile with neither display name nor username it stores `name` as null (the driver writes `undefined` as null), while the source's in-memory object carries `undefined`.
- Identity.Serialize: a record whose `githubId` is missing or empty yields `None`. passport treats such a falsy id as no result and fails the login with "Failed to serialize user into session", storing nothing; the model does not carry that error message, and the verify callback's records always carry the GitHub account id.
- Users.UpdateUser: the field-by-field effect on the addressed record is stated for collections whose `_id`s are unique. MongoDB's `_id` index guarantees that, and `Invariants` proves every operation keeps it.
- Profiles.UpdateProfile: the field-by-field effect is stated under the same unique-`_id` condition.
