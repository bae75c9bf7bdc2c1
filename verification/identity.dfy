/**
 The GitHub login configuration (config/passport.js): the strategy's verify
 callback, which finds or creates the local user for a GitHub profile, and the
 session codec, which stores only the `githubId` and looks the user up again on
 every request. Both work on the same `users` collection as the users controller.
 */
module Identity {
  import opened Options
  import opened Documents

  const PlaceholderEmail := "no-email@github.com"

  /** The profile passport-github2 hands to the verify callback, reduced to what the
      callback reads: `id`, `displayName`, `username` and the `value` of each entry of
      `emails` (a missing list reads like an empty one). */
  datatype GitHubProfile = GitHubProfile(
    id: string,
    displayName: Option<string>,
    username: Option<string>,
    emails: seq<Option<string>>)

  /** JavaScript truthiness of an optional string. */
  predicate Present(v: Option<string>) {
    v.Some? && v.value != ""
  }

  /** `profile.displayName || profile.username`; an absent username is stored as null. */
  function NameOf(p: GitHubProfile): Value {
    if Present(p.displayName) then Str(p.displayName.value)
    else if p.username.Some? then Str(p.username.value)
    else Null
  }

  /** `profile.emails?.[0]?.value || "no-email@github.com"`. */
  function EmailOf(p: GitHubProfile): string {
    if |p.emails| > 0 && Present(p.emails[0]) then p.emails[0].value else PlaceholderEmail
  }

  /** The record the callback inserts for a first login. */
  function NewIdentityDoc(p: GitHubProfile, now: int): Doc {
    map["githubId" := Str(p.id), "name" := NameOf(p), "email" := Str(EmailOf(p)), "createdAt" := Date(now)]
  }

  predicate HasGitHubId(es: seq<Entry>, githubId: string) {
    AnyMatch(es, ByField("githubId", Str(githubId)))
  }

  /** At most one record per GitHub account. */
  ghost predicate UniqueGitHubIds(es: seq<Entry>) {
    forall i, j :: 0 <= i < j < |es| && "githubId" in es[i].doc && "githubId" in es[j].doc ==>
      es[i].doc["githubId"] != es[j].doc["githubId"]
  }

  /** How many records carry this GitHub account id. */
  function CountGitHubId(es: seq<Entry>, githubId: string): nat {
    if |es| == 0 then 0
    else (if Matches(es[0], ByField("githubId", Str(githubId))) then 1 else 0) + CountGitHubId(es[1..], githubId)
  }

  /** What the callback passes to `done`: the user, or the error of a failed store call. */
  datatype Done = LoggedIn(user: Entry) | StoreFailure

  datatype Login = Login(done: Done, store: Store)

  /** The verify callback, with `now` the creation time and `newId` the `_id` the driver
      assigns. An existing record is reused as it is; otherwise exactly one is inserted. */
  function Resolve(s: Store, p: GitHubProfile, now: int, newId: Key): (r: Login)
    ensures r.store.reachable == s.reachable
    ensures r.done.StoreFailure? ==> r.store == s
    ensures r.done.StoreFailure? <==> !s.reachable || (!HasGitHubId(s.entries, p.id) && HasId(s.entries, newId))
    ensures s.reachable && HasGitHubId(s.entries, p.id) ==>
      r.store == s && r.done == LoggedIn(FindOne(s.entries, ByField("githubId", Str(p.id))).value)
    ensures r.done.LoggedIn? && !HasGitHubId(s.entries, p.id) ==>
      r.done.user == Entry(newId, NewIdentityDoc(p, now)) && r.store.entries == s.entries + [r.done.user]
    ensures r.done.LoggedIn? ==>
      r.done.user in r.store.entries && Matches(r.done.user, ByField("githubId", Str(p.id)))
  {
    if !s.reachable then Login(StoreFailure, s)
    else
      match FindOne(s.entries, ByField("githubId", Str(p.id)))
      case Some(user) => Login(LoggedIn(user), s)
      case None =>
        var user := Entry(newId, NewIdentityDoc(p, now));
        match InsertOne(s.entries, newId, user.doc)
        case None => Login(StoreFailure, s)
        case Some(after) =>
          assert after == s.entries + [user];
          Login(LoggedIn(user), s.(entries := after))
  }

  /** `serializeUser`: the session keeps only the GitHub account id. passport treats a
      falsy id (missing, or the empty string) as no result and fails the login with
      "Failed to serialize user into session"; that failure is `None`. */
  function Serialize(user: Entry): (token: Option<string>)
    ensures forall t :: token == Some(t) <==> t != "" && Matches(user, ByField("githubId", Str(t)))
  {
    if "githubId" in user.doc && user.doc["githubId"].Str? && user.doc["githubId"].text != "" then
      Some(user.doc["githubId"].text)
    else None
  }

  /** What `deserializeUser` passes to `done`: the user or null, or a store error. */
  datatype Restored = Restored(user: Option<Entry>) | RestoreFailure

  /** `deserializeUser`: look the account up again; a missing record is null, not an error. */
  function Deserialize(s: Store, token: string): (r: Restored)
    ensures r.RestoreFailure? <==> !s.reachable
    ensures r.Restored? ==> (r.user.None? <==> !HasGitHubId(s.entries, token))
    ensures r.Restored? && r.user.Some? ==>
      r.user.value in s.entries && Matches(r.user.value, ByField("githubId", Str(token)))
  {
    if !s.reachable then RestoreFailure
    else Restored(FindOne(s.entries, ByField("githubId", Str(token))))
  }

  /** What a request's session amounts to once passport has restored it. */
  datatype SessionState = Anonymous | SignedIn(user: Entry) | SessionError

  /** A request with no stored token is anonymous; a token whose record is gone
      downgrades the request to anonymous; a store error is an error. */
  function RestoreSession(s: Store, session: Option<string>): (st: SessionState)
    ensures st.SignedIn? <==> session.Some? && s.reachable && HasGitHubId(s.entries, session.value)
    ensures st.SessionError? <==> session.Some? && !s.reachable
    ensures st.SignedIn? ==> Deserialize(s, session.value) == Restored(Some(st.user))
    ensures st.SignedIn? ==> st.user in s.entries && Matches(st.user, ByField("githubId", Str(session.value)))
  {
    match session
    case None => Anonymous
    case Some(token) =>
      match Deserialize(s, token)
      case RestoreFailure => SessionError
      case Restored(None) => Anonymous
      case Restored(Some(user)) => SignedIn(user)
  }

  /** `req.isAuthenticated()`: a user was restored from the session. It is asked only
      of a request whose session was restored without error: a `SessionError` aborts the
      request before any guard runs (see `Routes.ServeSession`). */
  predicate IsAuthenticated(s: Store, session: Option<string>) {
    RestoreSession(s, session).SignedIn?
  }

  /** The new user's name is the display name, falling back to the login handle,
      and its e-mail is the first disclosed address, falling back to the placeholder. */
  lemma NewUserFallbacks(s: Store, p: GitHubProfile, now: int, newId: Key)
    requires s.reachable && !HasGitHubId(s.entries, p.id) && !HasId(s.entries, newId)
    ensures Resolve(s, p, now, newId).done.LoggedIn?
    ensures Resolve(s, p, now, newId).done.user.doc ==
      map["githubId" := Str(p.id),
          "name" := (if Present(p.displayName) then Str(p.displayName.value)
                     else if p.username.Some? then Str(p.username.value) else Null),
          "email" := Str(if |p.emails| > 0 && Present(p.emails[0]) then p.emails[0].value else PlaceholderEmail),
          "createdAt" := Date(now)]
  {
  }

  lemma {:induction false} CountGitHubIdAppend(es: seq<Entry>, e: Entry, githubId: string)
    ensures CountGitHubId(es + [e], githubId) ==
      CountGitHubId(es, githubId) + (if Matches(e, ByField("githubId", Str(githubId))) then 1 else 0)
  {
    if |es| == 0 {
      assert es + [e] == [e];
      assert [e][1..] == [];
    } else {
      assert (es + [e])[1..] == es[1..] + [e];
      CountGitHubIdAppend(es[1..], e, githubId);
    }
  }

  lemma {:induction false} CountGitHubIdZero(es: seq<Entry>, githubId: string)
    ensures CountGitHubId(es, githubId) == 0 <==> !HasGitHubId(es, githubId)
  {
    if |es| > 0 {
      CountGitHubIdZero(es[1..], githubId);
      if HasGitHubId(es, githubId) && !Matches(es[0], ByField("githubId", Str(githubId))) {
        var j :| 0 <= j < |es| && Matches(es[j], ByField("githubId", Str(githubId)));
        assert es[1..][j - 1] == es[j];
      }
      if HasGitHubId(es[1..], githubId) {
        var j :| 0 <= j < |es[1..]| && Matches(es[1..][j], ByField("githubId", Str(githubId)));
        assert es[j + 1] == es[1..][j];
      }
    }
  }

  /** Logging in twice with the same account, one login after the other, gives the
      same user both times and leaves one record for the account where there was none. */
  lemma ResolveTwice(s: Store, p: GitHubProfile, now1: int, newId1: Key, now2: int, newId2: Key)
    requires Resolve(s, p, now1, newId1).done.LoggedIn?
    ensures var first := Resolve(s, p, now1, newId1);
      Resolve(first.store, p, now2, newId2) == first
    ensures var first := Resolve(s, p, now1, newId1);
      CountGitHubId(first.store.entries, p.id) == if HasGitHubId(s.entries, p.id) then CountGitHubId(s.entries, p.id) else 1
  {
    var first := Resolve(s, p, now1, newId1);
    var f := ByField("githubId", Str(p.id));
    if !HasGitHubId(s.entries, p.id) {
      var es := s.entries;
      var after := first.store.entries;
      var user := first.done.user;
      assert after[|es|] == user;
      var i := FirstMatch(after, f).value;
      assert forall k :: 0 <= k < |es| ==> after[k] == es[k];
      assert i == |es|;
      CountGitHubIdAppend(es, user, p.id);
      CountGitHubIdZero(es, p.id);
    }
  }

  /** The session codec round-trips: the token of a stored account restores exactly
      that account's record while it exists. */
  lemma DeserializeSerialize(s: Store, user: Entry)
    requires s.reachable && UniqueGitHubIds(s.entries)
    requires user in s.entries && Serialize(user).Some?
    ensures Deserialize(s, Serialize(user).value) == Restored(Some(user))
  {
    var f := ByField("githubId", Str(Serialize(user).value));
    var i := FirstMatch(s.entries, f).value;
    var j :| 0 <= j < |s.entries| && s.entries[j] == user;
    assert s.entries[i].doc["githubId"] == s.entries[j].doc["githubId"];
    assert i == j;
  }

  /** After a successful login, the session token is the account id, and it restores the
      logged-in user; an empty account id cannot be serialized. */
  lemma LoginThenRestore(s: Store, p: GitHubProfile, now: int, newId: Key)
    requires Resolve(s, p, now, newId).done.LoggedIn?
    ensures var r := Resolve(s, p, now, newId);
      && Serialize(r.done.user) == (if p.id == "" then None else Some(p.id))
      && (p.id != "" ==> RestoreSession(r.store, Serialize(r.done.user)) == SignedIn(r.done.user))
  {
    ResolveTwice(s, p, now, newId, now, newId);
  }

  /** A provider profile with no display name and no e-mail: the handle `octocat`
      becomes the name and the placeholder the e-mail. */
  lemma OctocatExample()
    ensures var p := GitHubProfile("583231", None, Some("octocat"), []);
      var r := Resolve(Store(true, []), p, 0, ObjectKey("0123456789abcdef01234567"));
      r.done.LoggedIn? && r.done.user.doc["name"] == Str("octocat")
      && r.done.user.doc["email"] == Str("no-email@github.com")
  {
  }

  /** A second login with a different e-mail returns the record created at the first
      login unchanged: the stored record is not refreshed from the newer profile. */
  lemma ReuseWithoutRefresh(s: Store, now1: int, newId1: Key, now2: int, newId2: Key)
    requires s.reachable && !HasGitHubId(s.entries, "gh-42") && !HasId(s.entries, newId1)
    ensures var first := Resolve(s, GitHubProfile("gh-42", Some("A"), Some("a"), [Some("a@x.com")]), now1, newId1);
      var second := Resolve(first.store, GitHubProfile("gh-42", Some("B"), Some("b"), [Some("b@x.com")]), now2, newId2);
      second == first && second.done.user.doc["email"] == Str("a@x.com")
  {
    var p1 := GitHubProfile("gh-42", Some("A"), Some("a"), [Some("a@x.com")]);
    var p2 := GitHubProfile("gh-42", Some("B"), Some("b"), [Some("b@x.com")]);
    ResolveTwice(s, p1, now1, newId1, now2, newId2);
    var first := Resolve(s, p1, now1, newId1);
    assert Resolve(first.store, p2, now2, newId2) == Resolve(first.store, p1, now2, newId2);
  }
}
