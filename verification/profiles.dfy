/**
 The profiles controller (controllers/profiles.js) on the `history` collection:
 the same shape as the users controller with four free-text fields, no value
 validation, and an id-format check that runs before any database access.
 */
module Profiles {
  import opened Options
  import opened Documents
  import opened Http
  import ObjectIds

  /** The four fields a profile record is created with and may be updated on. */
  const ProfileFields: set<string> := {"chronicMedication", "allergies", "nextOfKin", "phoneNumber"}

  const AllFieldsRequired := "All fields are required"
  const InvalidIdFormat := "Invalid ID format"
  const NoFields := "At least one field must be provided"
  const ProfileNotFound := "Profile not found"

  predicate AllRequired(body: Body) {
    Truthy(body, "chronicMedication") && Truthy(body, "allergies") && Truthy(body, "nextOfKin") && Truthy(body, "phoneNumber")
  }

  /** The document `createProfile` inserts. */
  function NewProfileDoc(body: Body, now: int): (d: Doc)
    requires AllRequired(body)
    ensures d.Keys == ProfileFields + {"createdAt"}
    ensures forall f :: f in ProfileFields ==> d[f] == Str(body[f])
    ensures d["createdAt"] == Date(now)
  {
    map[
      "chronicMedication" := Str(body["chronicMedication"]),
      "allergies" := Str(body["allergies"]),
      "nextOfKin" := Str(body["nextOfKin"]),
      "phoneNumber" := Str(body["phoneNumber"]),
      "createdAt" := Date(now)]
  }

  /** The `$set` document `updateProfile` builds: every truthy field among the four. */
  function Supplied(body: Body): (m: Doc)
    ensures forall f :: f in m <==> f in ProfileFields && Truthy(body, f)
    ensures forall f :: f in m ==> Truthy(body, f) && m[f] == Str(body[f])
  {
    map f | f in ProfileFields && Truthy(body, f) :: Str(body[f])
  }

  /** `getAllProfiles`. */
  function GetAllProfiles(s: Store): (r: Reply)
    ensures r.store == s
    ensures r.response.status == 200 <==> s.reachable
    ensures r.response.status == 200 ==> r.response.payload == AllDocuments(s.entries)
  {
    if !s.reachable then Reply(Error(500, "Failed to fetch profiles"), s)
    else Reply(Response(200, AllDocuments(s.entries)), s)
  }

  /** `getProfileById`. */
  function GetProfileById(s: Store, id: string): (r: Reply)
    ensures r.store == s
    ensures r.response.status in {200, 400, 404, 500}
    ensures r.response.status == 400 <==> !ObjectIds.IsValid(id)
    ensures r.response.status == 404 <==>
      ObjectIds.IsValid(id) && s.reachable && !HasId(s.entries, ObjectIds.ToObjectKey(id))
    ensures r.response.status == 200 <==>
      ObjectIds.IsValid(id) && s.reachable && HasId(s.entries, ObjectIds.ToObjectKey(id))
    ensures r.response.status == 200 ==>
      r.response.payload.OneDocument? && r.response.payload.entry in s.entries
      && r.response.payload.entry.id == ObjectIds.ToObjectKey(id)
  {
    if !ObjectIds.IsValid(id) then Reply(Error(400, InvalidIdFormat), s)
    else if !s.reachable then Reply(Error(500, "Failed to fetch profile"), s)
    else
      match FindOne(s.entries, ById(ObjectIds.ToObjectKey(id)))
      case None => Reply(Error(404, ProfileNotFound), s)
      case Some(e) => Reply(Response(200, OneDocument(e)), s)
  }

  /** `createProfile`, with `now` the creation time and `newId` the `_id` the driver generates. */
  function CreateProfile(s: Store, body: Body, now: int, newId: Key): (r: Reply)
    ensures r.store.reachable == s.reachable
    ensures r.response.status in {201, 400, 500}
    ensures r.response.status == 400 <==> exists f :: f in ProfileFields && !Truthy(body, f)
    ensures r.response.status == 201 <==> AllRequired(body) && s.reachable && !HasId(s.entries, newId)
    ensures r.response.status == 201 ==>
      r.response.payload == CreatedId(newId) && r.store.entries == s.entries + [Entry(newId, NewProfileDoc(body, now))]
    ensures r.response.status != 201 ==> r.store == s
  {
    if !AllRequired(body) then
      assert !Truthy(body, "chronicMedication") || !Truthy(body, "allergies")
        || !Truthy(body, "nextOfKin") || !Truthy(body, "phoneNumber");
      Reply(Error(400, AllFieldsRequired), s)
    else if !s.reachable then Reply(Error(500, "Failed to create profile"), s)
    else
      match InsertOne(s.entries, newId, NewProfileDoc(body, now))
      case None => Reply(Error(500, "Failed to create profile"), s)
      case Some(after) =>
        assert after == s.entries + [Entry(newId, NewProfileDoc(body, now))];
        Reply(Response(201, CreatedId(newId)), s.(entries := after))
  }

  /** `updateProfile`. */
  function UpdateProfile(s: Store, id: string, body: Body): (r: Reply)
    ensures r.store.reachable == s.reachable
    ensures r.response.status in {204, 400, 404, 500}
    ensures r.response.status != 204 ==> r.store == s
    ensures r.response.status == 400 <==>
      !ObjectIds.IsValid(id) || forall f :: f in ProfileFields ==> !Truthy(body, f)
    ensures r.response.status == 404 <==>
      ObjectIds.IsValid(id) && (exists f :: f in ProfileFields && Truthy(body, f)) && s.reachable
      && !HasId(s.entries, ObjectIds.ToObjectKey(id))
    ensures r.response.status == 204 <==>
      ObjectIds.IsValid(id) && (exists f :: f in ProfileFields && Truthy(body, f)) && s.reachable
      && HasId(s.entries, ObjectIds.ToObjectKey(id))
    ensures r.response.status == 204 && UniqueIds(s.entries) ==>
      ChangedOnlySupplied(s.entries, r.store.entries, ObjectIds.ToObjectKey(id), ProfileFields, body)
  {
    if !ObjectIds.IsValid(id) then Reply(Error(400, InvalidIdFormat), s)
    else
      var fields := Supplied(body);
      if fields == map[] then
        assert forall f :: f in ProfileFields ==> !Truthy(body, f) by {
          forall f | f in ProfileFields ensures !Truthy(body, f) { assert f !in fields; }
        }
        Reply(Error(400, NoFields), s)
      else if !s.reachable then Reply(Error(500, "Failed to update profile"), s)
      else
        var w := SetFields(s.entries, ObjectIds.ToObjectKey(id), fields);
        if w.count == 0 then Reply(Error(404, ProfileNotFound), s)
        else Reply(Response(204, NoContent), s.(entries := w.entries))
  }

  /** `deleteProfile`. */
  function DeleteProfile(s: Store, id: string): (r: Reply)
    ensures r.store.reachable == s.reachable
    ensures r.response.status in {204, 400, 404, 500}
    ensures r.response.status != 204 ==> r.store == s
    ensures r.response.status == 400 <==> !ObjectIds.IsValid(id)
    ensures r.response.status == 404 <==>
      ObjectIds.IsValid(id) && s.reachable && !HasId(s.entries, ObjectIds.ToObjectKey(id))
    ensures r.response.status == 204 <==>
      ObjectIds.IsValid(id) && s.reachable && HasId(s.entries, ObjectIds.ToObjectKey(id))
    ensures r.response.status == 204 ==> |r.store.entries| == |s.entries| - 1
  {
    if !ObjectIds.IsValid(id) then Reply(Error(400, InvalidIdFormat), s)
    else if !s.reachable then Reply(Error(500, "Failed to delete profile"), s)
    else
      var w := DeleteOne(s.entries, ObjectIds.ToObjectKey(id));
      if w.count == 0 then Reply(Error(404, ProfileNotFound), s)
      else Reply(Response(204, NoContent), s.(entries := w.entries))
  }

  /** An id that is not a valid ObjectId is refused with 400 by fetch, update and
      delete, whatever the collection holds and whether or not it can be reached. */
  lemma InvalidIdRejectedFirst(s: Store, id: string, body: Body)
    requires !ObjectIds.IsValid(id)
    ensures GetProfileById(s, id) == Reply(Error(400, InvalidIdFormat), s)
    ensures UpdateProfile(s, id, body) == Reply(Error(400, InvalidIdFormat), s)
    ensures DeleteProfile(s, id) == Reply(Error(400, InvalidIdFormat), s)
  {
  }

  /** In the map view, a successful update gives the id's document the supplied fields
      on top of the ones it had, and every other id keeps its document. */
  lemma UpdateProfileSetsExactly(s: Store, id: string, body: Body, other: Key)
    requires UniqueIds(s.entries)
    ensures var r := UpdateProfile(s, id, body);
      r.response.status == 204 ==>
        && Get(r.store.entries, ObjectIds.ToObjectKey(id)) == Some(Get(s.entries, ObjectIds.ToObjectKey(id)).value + Supplied(body))
        && (other != ObjectIds.ToObjectKey(id) ==> Get(r.store.entries, other) == Get(s.entries, other))
  {
    if ObjectIds.IsValid(id) {
      GetAfterSetFields(s.entries, ObjectIds.ToObjectKey(id), Supplied(body), other);
    }
  }

  /** A successful delete removes exactly the record stored under the id. */
  lemma DeleteProfileRemovesExactly(s: Store, id: string, other: Key)
    requires UniqueIds(s.entries)
    ensures var r := DeleteProfile(s, id);
      r.response.status == 204 ==>
        && Get(r.store.entries, ObjectIds.ToObjectKey(id)).None?
        && (other != ObjectIds.ToObjectKey(id) ==> Get(r.store.entries, other) == Get(s.entries, other))
  {
    if ObjectIds.IsValid(id) {
      GetAfterDeleteOne(s.entries, ObjectIds.ToObjectKey(id), other);
    }
  }
}
