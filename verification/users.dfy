/**
 The users controller (controllers/users.js): list, fetch, create, partial update
 and delete on the `users` collection, each as a pure function from the collection
 and the request to the response and the collection afterwards.
 */
module Users {
  import opened Options
  import opened Documents
  import opened Http
  import EmailFormat
  import ObjectIds

  /** The six fields a user record is created with and may be updated on. */
  const UserFields: set<string> := {"patientName", "company", "position", "gender", "ageGroup", "email"}
  const Genders: set<string> := {"Male", "Female", "Other"}
  const AgeGroups: set<string> := {"18-30", "31-50", "51+"}

  const AllFieldsRequired := "All fields are required"
  const InvalidEmail := "Invalid email format"
  const InvalidGender := "Invalid gender. Must be Male, Female, or Other"
  const InvalidAgeGroup := "Invalid ageGroup. Must be 18-30, 31-50, or 51+"
  const EmailExists := "Email already exists"
  const NoFields := "At least one field must be provided"
  const UserNotFound := "User not found"

  predicate AllRequired(body: Body) {
    && Truthy(body, "patientName") && Truthy(body, "company") && Truthy(body, "position")
    && Truthy(body, "gender") && Truthy(body, "ageGroup") && Truthy(body, "email")
  }

  /** What a creatable user is, with the e-mail rule stated as the pattern's language. */
  ghost predicate ValidNewUser(body: Body) {
    && AllRequired(body)
    && EmailFormat.MatchesPattern(body["email"])
    && body["gender"] in Genders
    && body["ageGroup"] in AgeGroups
  }

  /** What an acceptable update body is: every supplied enumerated or e-mail field is
      well-formed, and at least one of the six fields is supplied. */
  ghost predicate ValidUpdate(body: Body) {
    && (Truthy(body, "gender") ==> body["gender"] in Genders)
    && (Truthy(body, "ageGroup") ==> body["ageGroup"] in AgeGroups)
    && (Truthy(body, "email") ==> EmailFormat.MatchesPattern(body["email"]))
    && exists f :: f in UserFields && Truthy(body, f)
  }

  /** Some document already has this e-mail (`findOne({email})`). */
  predicate EmailTaken(es: seq<Entry>, email: string) {
    AnyMatch(es, ByField("email", Str(email)))
  }

  /** Some document other than `k` has this e-mail (`findOne({email, _id: {$ne: k}})`). */
  predicate EmailClash(es: seq<Entry>, body: Body, k: Key) {
    Truthy(body, "email") && AnyMatch(es, ByFieldExcept("email", Str(body["email"]), k))
  }

  /** The first failing check of `createUser`, in source order. */
  function CreateCheck(body: Body): (r: Option<string>)
    ensures r.None? <==> ValidNewUser(body)
    ensures !AllRequired(body) ==> r == Some(AllFieldsRequired)
    ensures AllRequired(body) && !EmailFormat.MatchesPattern(body["email"]) ==> r == Some(InvalidEmail)
    ensures AllRequired(body) && EmailFormat.MatchesPattern(body["email"]) && body["gender"] !in Genders ==>
      r == Some(InvalidGender)
    ensures (AllRequired(body) && EmailFormat.MatchesPattern(body["email"]) && body["gender"] in Genders
      && body["ageGroup"] !in AgeGroups) ==> r == Some(InvalidAgeGroup)
  {
    if !AllRequired(body) then Some(AllFieldsRequired)
    else
      EmailFormat.ValidEmailMatchesPattern(body["email"]);
      if !EmailFormat.IsValidEmail(body["email"]) then Some(InvalidEmail)
      else if body["gender"] !in Genders then Some(InvalidGender)
      else if body["ageGroup"] !in AgeGroups then Some(InvalidAgeGroup)
      else None
  }

  /** The document `createUser` inserts. */
  function NewUserDoc(body: Body, now: int): (d: Doc)
    requires AllRequired(body)
    ensures d.Keys == UserFields + {"createdAt"}
    ensures forall f :: f in UserFields ==> d[f] == Str(body[f])
    ensures d["createdAt"] == Date(now)
  {
    map[
      "patientName" := Str(body["patientName"]),
      "company" := Str(body["company"]),
      "position" := Str(body["position"]),
      "gender" := Str(body["gender"]),
      "ageGroup" := Str(body["ageGroup"]),
      "email" := Str(body["email"]),
      "createdAt" := Date(now)]
  }

  /** The first failing check of `updateUser` before it touches the database. */
  function UpdateCheck(body: Body): (r: Option<string>)
    ensures r.None? <==> ValidUpdate(body)
    ensures Truthy(body, "gender") && body["gender"] !in Genders ==> r == Some(InvalidGender)
    ensures ((Truthy(body, "gender") ==> body["gender"] in Genders)
      && Truthy(body, "ageGroup") && body["ageGroup"] !in AgeGroups) ==> r == Some(InvalidAgeGroup)
    ensures ((Truthy(body, "gender") ==> body["gender"] in Genders)
      && (Truthy(body, "ageGroup") ==> body["ageGroup"] in AgeGroups)
      && Truthy(body, "email") && !EmailFormat.MatchesPattern(body["email"])) ==> r == Some(InvalidEmail)
    ensures (forall f :: f in UserFields ==> !Truthy(body, f)) && r.Some? ==> r.value == NoFields
  {
    EmailFormat.ValidEmailMatchesPattern(if "email" in body then body["email"] else "");
    if Truthy(body, "gender") && body["gender"] !in Genders then Some(InvalidGender)
    else if Truthy(body, "ageGroup") && body["ageGroup"] !in AgeGroups then Some(InvalidAgeGroup)
    else if Truthy(body, "email") && !EmailFormat.IsValidEmail(body["email"]) then Some(InvalidEmail)
    else if Supplied(body) == map[] then Some(NoFields)
    else None
  }

  /** The `$set` document `updateUser` builds: every truthy field among the six. */
  function Supplied(body: Body): (m: Doc)
    ensures forall f :: f in m <==> f in UserFields && Truthy(body, f)
    ensures forall f :: f in m ==> Truthy(body, f) && m[f] == Str(body[f])
  {
    map f | f in UserFields && Truthy(body, f) :: Str(body[f])
  }

  /** `getAllUsers`. */
  function GetAllUsers(s: Store): (r: Reply)
    ensures r.store == s
    ensures r.response.status == 200 <==> s.reachable
    ensures r.response.status == 200 ==> r.response.payload == AllDocuments(s.entries)
  {
    if !s.reachable then Reply(Error(500, "Failed to fetch users"), s)
    else Reply(Response(200, AllDocuments(s.entries)), s)
  }

  /** `getUserById`. */
  function GetUserById(s: Store, id: string): (r: Reply)
    ensures r.store == s
    ensures r.response.status in {200, 404, 500}
    ensures r.response.status == 200 <==> s.reachable && HasId(s.entries, ObjectIds.NormalizeId(id))
    ensures r.response.status == 404 <==> s.reachable && !HasId(s.entries, ObjectIds.NormalizeId(id))
    ensures r.response.status == 200 ==>
      r.response.payload.OneDocument? && r.response.payload.entry in s.entries
      && r.response.payload.entry.id == ObjectIds.NormalizeId(id)
  {
    if !s.reachable then Reply(Error(500, "Failed to fetch user"), s)
    else
      match FindOne(s.entries, ById(ObjectIds.NormalizeId(id)))
      case None => Reply(Error(404, UserNotFound), s)
      case Some(e) => Reply(Response(200, OneDocument(e)), s)
  }

  /** `createUser`, with `now` the creation time and `newId` the `_id` the driver generates. */
  function CreateUser(s: Store, body: Body, now: int, newId: Key): (r: Reply)
    ensures r.store.reachable == s.reachable
    ensures r.response.status in {201, 400, 500}
    ensures r.response.status == 201 <==>
      ValidNewUser(body) && s.reachable && !EmailTaken(s.entries, body["email"]) && !HasId(s.entries, newId)
    ensures r.response.status == 201 ==>
      r.response.payload == CreatedId(newId) && r.store.entries == s.entries + [Entry(newId, NewUserDoc(body, now))]
    ensures r.response.status != 201 ==> r.store == s
    ensures r.response.status == 400 <==>
      !ValidNewUser(body) || (s.reachable && EmailTaken(s.entries, body["email"]))
  {
    match CreateCheck(body)
    case Some(message) => Reply(Error(400, message), s)
    case None =>
      if !s.reachable then Reply(Error(500, "Failed to create user"), s)
      else if EmailTaken(s.entries, body["email"]) then Reply(Error(400, EmailExists), s)
      else
        match InsertOne(s.entries, newId, NewUserDoc(body, now))
        case None => Reply(Error(500, "Failed to create user"), s)
        case Some(after) =>
          assert after == s.entries + [Entry(newId, NewUserDoc(body, now))];
          Reply(Response(201, CreatedId(newId)), s.(entries := after))
  }

  /** `updateUser`. The e-mail conflict check runs before the update, so a conflicting
      e-mail is reported even when no record has the id. */
  function UpdateUser(s: Store, id: string, body: Body): (r: Reply)
    ensures r.store.reachable == s.reachable
    ensures r.response.status in {204, 400, 404, 500}
    ensures r.response.status != 204 ==> r.store == s
    ensures r.response.status == 400 <==>
      !ValidUpdate(body) || (s.reachable && EmailClash(s.entries, body, ObjectIds.NormalizeId(id)))
    ensures r.response.status == 404 <==>
      ValidUpdate(body) && s.reachable && !EmailClash(s.entries, body, ObjectIds.NormalizeId(id))
      && !HasId(s.entries, ObjectIds.NormalizeId(id))
    ensures r.response.status == 204 <==>
      ValidUpdate(body) && s.reachable && !EmailClash(s.entries, body, ObjectIds.NormalizeId(id))
      && HasId(s.entries, ObjectIds.NormalizeId(id))
    ensures r.response.status == 204 && UniqueIds(s.entries) ==>
      ChangedOnlySupplied(s.entries, r.store.entries, ObjectIds.NormalizeId(id), UserFields, body)
  {
    match UpdateCheck(body)
    case Some(message) => Reply(Error(400, message), s)
    case None =>
      if !s.reachable then Reply(Error(500, "Failed to update user"), s)
      else
        var k := ObjectIds.NormalizeId(id);
        if EmailClash(s.entries, body, k) then Reply(Error(400, EmailExists), s)
        else
          var w := SetFields(s.entries, k, Supplied(body));
          if w.count == 0 then Reply(Error(404, UserNotFound), s)
          else Reply(Response(204, NoContent), s.(entries := w.entries))
  }

  /** `deleteUser`. */
  function DeleteUser(s: Store, id: string): (r: Reply)
    ensures r.store.reachable == s.reachable
    ensures r.response.status in {204, 404, 500}
    ensures r.response.status != 204 ==> r.store == s
    ensures r.response.status == 204 <==> s.reachable && HasId(s.entries, ObjectIds.NormalizeId(id))
    ensures r.response.status == 404 <==> s.reachable && !HasId(s.entries, ObjectIds.NormalizeId(id))
    ensures r.response.status == 204 ==> |r.store.entries| == |s.entries| - 1
  {
    if !s.reachable then Reply(Error(500, "Failed to delete user"), s)
    else
      var w := DeleteOne(s.entries, ObjectIds.NormalizeId(id));
      if w.count == 0 then Reply(Error(404, UserNotFound), s)
      else Reply(Response(204, NoContent), s.(entries := w.entries))
  }

  /** A create request missing any of the six fields, or holding an empty one, is
      refused before the database is consulted, and nothing is written. */
  lemma CreateUserRequiresAllFields(s: Store, body: Body, now: int, newId: Key, f: string)
    requires f in UserFields && !Truthy(body, f)
    ensures CreateUser(s, body, now, newId) == Reply(Error(400, AllFieldsRequired), s)
  {
  }

  /** The body checks of create and update come before any database access: a body
      they refuse gets the same 400 whatever the collection holds, and nothing changes. */
  lemma ValidationPrecedesStore(s1: Store, s2: Store, id: string, body: Body, now: int, newId: Key)
    ensures CreateCheck(body).Some? ==>
      && CreateUser(s1, body, now, newId) == Reply(Error(400, CreateCheck(body).value), s1)
      && CreateUser(s2, body, now, newId).response == CreateUser(s1, body, now, newId).response
    ensures UpdateCheck(body).Some? ==>
      && UpdateUser(s1, id, body) == Reply(Error(400, UpdateCheck(body).value), s1)
      && UpdateUser(s2, id, body).response == UpdateUser(s1, id, body).response
  {
  }

  /** An update that supplies none of the six fields is refused with 400 and changes nothing. */
  lemma UpdateUserNeedsAField(s: Store, id: string, body: Body)
    requires forall f :: f in UserFields ==> !Truthy(body, f)
    ensures UpdateUser(s, id, body) == Reply(Error(400, NoFields), s)
  {
    assert !Truthy(body, "gender") && !Truthy(body, "ageGroup") && !Truthy(body, "email");
  }

  /** The e-mail conflict check of an update ignores the record being updated: a body
      that repeats the record's own e-mail is accepted. */
  lemma UpdateKeepsOwnEmail(s: Store, id: string, body: Body)
    requires s.reachable && UniqueIds(s.entries)
    requires HasId(s.entries, ObjectIds.NormalizeId(id)) && ValidUpdate(body) && Truthy(body, "email")
    requires forall j :: 0 <= j < |s.entries| && s.entries[j].id != ObjectIds.NormalizeId(id) ==>
      !("email" in s.entries[j].doc && s.entries[j].doc["email"] == Str(body["email"]))
    ensures UpdateUser(s, id, body).response == Response(204, NoContent)
  {
  }
}
