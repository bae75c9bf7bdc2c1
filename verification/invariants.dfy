/**
 Properties of the `users` and `history` collections that hold across operations:
 unique `_id`s and at most one record per GitHub account are kept by every
 operation on the users collection; unique e-mails are kept by the users
 controller but not by the GitHub login, which writes to the same collection
 without checking.
 */
module Invariants {
  import opened Options
  import opened Documents
  import opened Http
  import Users
  import Profiles
  import Identity
  import ObjectIds

  /** No two records share an e-mail. */
  ghost predicate UniqueEmails(es: seq<Entry>) {
    forall i, j :: 0 <= i < j < |es| && "email" in es[i].doc && "email" in es[j].doc ==>
      es[i].doc["email"] != es[j].doc["email"]
  }

  /** What every operation on the users collection keeps. */
  ghost predicate Consistent(es: seq<Entry>) {
    UniqueIds(es) && Identity.UniqueGitHubIds(es)
  }

  lemma CreateUserKeepsInvariants(s: Store, body: Body, now: int, newId: Key)
    requires Consistent(s.entries)
    ensures Consistent(Users.CreateUser(s, body, now, newId).store.entries)
    ensures UniqueEmails(s.entries) ==> UniqueEmails(Users.CreateUser(s, body, now, newId).store.entries)
  {
    var r := Users.CreateUser(s, body, now, newId);
    if r.response.status == 201 {
      var es := s.entries;
      var after := r.store.entries;
      var d := Users.NewUserDoc(body, now);
      assert after[|es|] == Entry(newId, d);
      assert forall j :: 0 <= j < |es| ==> after[j] == es[j];
      assert "githubId" !in d;
      forall j | 0 <= j < |es| ensures !Matches(es[j], ByField("email", Str(body["email"]))) {
      }
    }
  }

  lemma UpdateUserKeepsInvariants(s: Store, id: string, body: Body)
    requires Consistent(s.entries)
    ensures Consistent(Users.UpdateUser(s, id, body).store.entries)
    ensures UniqueEmails(s.entries) ==> UniqueEmails(Users.UpdateUser(s, id, body).store.entries)
  {
    var r := Users.UpdateUser(s, id, body);
    if r.response.status == 204 {
      var es := s.entries;
      var after := r.store.entries;
      var k := ObjectIds.NormalizeId(id);
      assert ChangedOnlySupplied(es, after, k, Users.UserFields, body);
      assert "githubId" !in Users.UserFields;
      forall j | 0 <= j < |es|
        ensures ("githubId" in after[j].doc <==> "githubId" in es[j].doc)
        ensures "githubId" in es[j].doc ==> after[j].doc["githubId"] == es[j].doc["githubId"]
      {
        if es[j].id == k { assert Overwrites(es[j].doc, after[j].doc, Users.UserFields, body); }
      }
      assert UniqueIds(after);
      if UniqueEmails(es) {
        forall a, b | 0 <= a < b < |after| && "email" in after[a].doc && "email" in after[b].doc
          ensures after[a].doc["email"] != after[b].doc["email"]
        {
          UpdatedEmailPair(es, after, k, body, a, b);
        }
      }
    }
  }

  lemma UpdatedEmailPair(es: seq<Entry>, after: seq<Entry>, k: Key, body: Body, a: nat, b: nat)
    requires UniqueIds(es) && UniqueEmails(es)
    requires ChangedOnlySupplied(es, after, k, Users.UserFields, body)
    requires !Users.EmailClash(es, body, k)
    requires a < b < |after| && "email" in after[a].doc && "email" in after[b].doc
    ensures after[a].doc["email"] != after[b].doc["email"]
  {
    var supplied := Truthy(body, "email");
    if es[a].id == k {
      assert es[b].id != k && after[b] == es[b];
      assert Overwrites(es[a].doc, after[a].doc, Users.UserFields, body);
      if supplied {
        assert !Matches(es[b], ByFieldExcept("email", Str(body["email"]), k));
      }
    } else if es[b].id == k {
      assert after[a] == es[a];
      assert Overwrites(es[b].doc, after[b].doc, Users.UserFields, body);
      if supplied {
        assert !Matches(es[a], ByFieldExcept("email", Str(body["email"]), k));
      }
    } else {
      assert after[a] == es[a] && after[b] == es[b];
    }
  }

  lemma DeleteUserKeepsInvariants(s: Store, id: string)
    requires Consistent(s.entries)
    ensures Consistent(Users.DeleteUser(s, id).store.entries)
    ensures UniqueEmails(s.entries) ==> UniqueEmails(Users.DeleteUser(s, id).store.entries)
  {
    var r := Users.DeleteUser(s, id);
    if r.response.status == 204 {
      var es := s.entries;
      var k := ObjectIds.NormalizeId(id);
      var i := FirstMatch(es, ById(k)).value;
      RemoveAtIndex(es, i);
      var after := r.store.entries;
      assert after == es[..i] + es[i + 1..];
      GetAfterDeleteOne(es, k, k);
      forall a, b | 0 <= a < b < |after|
        ensures "githubId" in after[a].doc && "githubId" in after[b].doc ==>
          after[a].doc["githubId"] != after[b].doc["githubId"]
        ensures UniqueEmails(es) && "email" in after[a].doc && "email" in after[b].doc ==>
          after[a].doc["email"] != after[b].doc["email"]
      {
        assert after[a] == es[Shift(a, i)] && after[b] == es[Shift(b, i)];
      }
    }
  }

  /** A successful delete removes exactly the records stored under the id. */
  lemma DeleteUserRemovesExactly(s: Store, id: string, other: Key)
    requires UniqueIds(s.entries)
    ensures var r := Users.DeleteUser(s, id);
      r.response.status == 204 ==>
        && Get(r.store.entries, ObjectIds.NormalizeId(id)).None?
        && (other != ObjectIds.NormalizeId(id) ==> Get(r.store.entries, other) == Get(s.entries, other))
        && (forall e :: e in r.store.entries <==> e in s.entries && e.id != ObjectIds.NormalizeId(id))
  {
    var r := Users.DeleteUser(s, id);
    if r.response.status == 204 {
      var k := ObjectIds.NormalizeId(id);
      GetAfterDeleteOne(s.entries, k, other);
      forall e | e in r.store.entries ensures e.id != k {
        var j :| 0 <= j < |r.store.entries| && r.store.entries[j] == e;
        assert !Matches(r.store.entries[j], ById(k));
      }
    }
  }

  /** In the map view, a successful update gives the id's document the supplied fields
      on top of the ones it had, and every other id keeps its document. */
  lemma UpdateUserSetsExactly(s: Store, id: string, body: Body, other: Key)
    requires UniqueIds(s.entries)
    ensures var r := Users.UpdateUser(s, id, body);
      r.response.status == 204 ==>
        && Get(r.store.entries, ObjectIds.NormalizeId(id)) == Some(Get(s.entries, ObjectIds.NormalizeId(id)).value + Users.Supplied(body))
        && (other != ObjectIds.NormalizeId(id) ==> Get(r.store.entries, other) == Get(s.entries, other))
  {
    GetAfterSetFields(s.entries, ObjectIds.NormalizeId(id), Users.Supplied(body), other);
  }

  lemma ResolveKeepsInvariants(s: Store, p: Identity.GitHubProfile, now: int, newId: Key)
    requires Consistent(s.entries)
    ensures Consistent(Identity.Resolve(s, p, now, newId).store.entries)
  {
    var r := Identity.Resolve(s, p, now, newId);
    if r.done.LoggedIn? && !Identity.HasGitHubId(s.entries, p.id) {
      var es := s.entries;
      var after := r.store.entries;
      assert after[|es|] == r.done.user;
      assert forall j :: 0 <= j < |es| ==> after[j] == es[j];
      forall j | 0 <= j < |es| ensures !Matches(es[j], ByField("githubId", Str(p.id))) {
      }
    }
  }

  /** Two GitHub accounts that disclose no e-mail both get the placeholder address, so
      logins can leave two records with one e-mail, which `createUser` never would. */
  lemma LoginsCanShareEmail()
    ensures var first := Identity.Resolve(Store(true, []), Identity.GitHubProfile("1", None, Some("ann"), []), 0,
                                          ObjectKey("000000000000000000000001"));
      var second := Identity.Resolve(first.store, Identity.GitHubProfile("2", None, Some("bob"), []), 0,
                                     ObjectKey("000000000000000000000002"));
      && second.done.LoggedIn?
      && Consistent(second.store.entries)
      && !UniqueEmails(second.store.entries)
  {
    var first := Identity.Resolve(Store(true, []), Identity.GitHubProfile("1", None, Some("ann"), []), 0,
                                  ObjectKey("000000000000000000000001"));
    var second := Identity.Resolve(first.store, Identity.GitHubProfile("2", None, Some("bob"), []), 0,
                                   ObjectKey("000000000000000000000002"));
    ResolveKeepsInvariants(Store(true, []), Identity.GitHubProfile("1", None, Some("ann"), []), 0,
                           ObjectKey("000000000000000000000001"));
    ResolveKeepsInvariants(first.store, Identity.GitHubProfile("2", None, Some("bob"), []), 0,
                           ObjectKey("000000000000000000000002"));
    assert second.store.entries[0].doc["email"] == second.store.entries[1].doc["email"];
  }

  /** Every profile write keeps `_id`s unique. */
  lemma ProfileWritesKeepIdsUnique(s: Store, id: string, body: Body, now: int, newId: Key)
    requires UniqueIds(s.entries)
    ensures UniqueIds(Profiles.CreateProfile(s, body, now, newId).store.entries)
    ensures UniqueIds(Profiles.UpdateProfile(s, id, body).store.entries)
    ensures UniqueIds(Profiles.DeleteProfile(s, id).store.entries)
  {
    if ObjectIds.IsValid(id) {
      GetAfterDeleteOne(s.entries, ObjectIds.ToObjectKey(id), ObjectIds.ToObjectKey(id));
    }
  }
}
