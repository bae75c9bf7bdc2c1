/** The optional value used throughout the model. */
module Options {

  datatype Option<T> = None | Some(value: T)
}

/**
 This module models a MongoDB collection as the handlers see it: a sequence of
 documents in natural order, each carrying its `_id`. `findOne` returns the first
 match in that order, `insertOne` appends, `updateOne` with `$set` overwrites fields
 of the first match in place, and `deleteOne` removes the first match.
 */
module Documents {
  import opened Options

  /** The `_id` of a document: an ObjectId, held in its canonical lower-case
      24-digit hexadecimal form, or a plain string. */
  datatype Key = ObjectKey(hex: string) | StringKey(raw: string)

  /** The field values the handlers store. `Date` is a `new Date()` timestamp in
      milliseconds; `Null` is what the driver writes for an `undefined` field. */
  datatype Value = Str(text: string) | Date(millis: int) | Null

  type Doc = map<string, Value>

  datatype Entry = Entry(id: Key, doc: Doc)

  /** One collection, and whether the database can be reached at all. */
  datatype Store = Store(reachable: bool, entries: seq<Entry>)

  /** The query documents the handlers pass to `findOne`, `updateOne` and `deleteOne`:
      `{_id: k}`, `{name: v}` and `{name: v, _id: {$ne: k}}`. */
  datatype Filter =
    | ById(key: Key)
    | ByField(name: string, value: Value)
    | ByFieldExcept(name: string, value: Value, excluded: Key)

  predicate Matches(e: Entry, f: Filter) {
    match f
    case ById(k) => e.id == k
    case ByField(n, v) => n in e.doc && e.doc[n] == v
    case ByFieldExcept(n, v, k) => n in e.doc && e.doc[n] == v && e.id != k
  }

  predicate AnyMatch(es: seq<Entry>, f: Filter) {
    exists j :: 0 <= j < |es| && Matches(es[j], f)
  }

  predicate HasId(es: seq<Entry>, k: Key) {
    AnyMatch(es, ById(k))
  }

  /** No two documents share an `_id` (MongoDB's unique `_id` index). */
  ghost predicate UniqueIds(es: seq<Entry>) {
    forall i, j :: 0 <= i < j < |es| ==> es[i].id != es[j].id
  }

  /** The position of the first document in natural order that matches `f`. */
  function FirstMatch(es: seq<Entry>, f: Filter): (r: Option<nat>)
    ensures r.Some? ==> r.value < |es| && Matches(es[r.value], f)
    ensures r.Some? ==> forall j :: 0 <= j < r.value ==> !Matches(es[j], f)
    ensures r.None? <==> !AnyMatch(es, f)
  {
    if |es| == 0 then None
    else if Matches(es[0], f) then Some(0)
    else
      match FirstMatch(es[1..], f)
      case None =>
        assert forall j :: 1 <= j < |es| ==> es[j] == es[1..][j - 1];
        None
      case Some(i) => Some(i + 1)
  }

  /** `findOne(filter)`. */
  function FindOne(es: seq<Entry>, f: Filter): (r: Option<Entry>)
    ensures r.Some? <==> AnyMatch(es, f)
    ensures r.Some? ==> r.value in es && Matches(r.value, f)
  {
    match FirstMatch(es, f)
    case None => None
    case Some(i) => Some(es[i])
  }

  /** The map view of a collection: the document stored under `k`, if any. */
  function Get(es: seq<Entry>, k: Key): (r: Option<Doc>)
    ensures r.Some? <==> HasId(es, k)
    ensures r.Some? ==> Entry(k, r.value) in es
  {
    match FindOne(es, ById(k))
    case None => None
    case Some(e) => Some(e.doc)
  }

  /** `insertOne(doc)` with the generated `_id` `k`; None is the duplicate-key error. */
  function InsertOne(es: seq<Entry>, k: Key, d: Doc): (r: Option<seq<Entry>>)
    ensures r.None? <==> HasId(es, k)
    ensures r.Some? ==> |r.value| == |es| + 1 && r.value[..|es|] == es && r.value[|es|] == Entry(k, d)
    ensures r.Some? && UniqueIds(es) ==> UniqueIds(r.value)
  {
    if HasId(es, k) then None else Some(es + [Entry(k, d)])
  }

  /** The outcome of a write: `matchedCount` or `deletedCount`, and the collection after. */
  datatype Write = Write(count: nat, entries: seq<Entry>)

  /** `updateOne({_id: k}, {$set: fields})`. */
  function SetFields(es: seq<Entry>, k: Key, fields: Doc): (w: Write)
    ensures w.count <= 1
    ensures w.count == 0 <==> !HasId(es, k)
    ensures w.count == 0 ==> w.entries == es
    ensures |w.entries| == |es|
    ensures forall j :: 0 <= j < |es| ==> w.entries[j].id == es[j].id
    ensures forall j :: 0 <= j < |es| && es[j].id != k ==> w.entries[j] == es[j]
    ensures UniqueIds(es) ==>
      forall j :: 0 <= j < |es| && es[j].id == k ==> w.entries[j].doc == es[j].doc + fields
  {
    match FirstMatch(es, ById(k))
    case None => Write(0, es)
    case Some(i) => Write(1, es[i := Entry(k, es[i].doc + fields)])
  }

  /** `deleteOne({_id: k})`. */
  function DeleteOne(es: seq<Entry>, k: Key): (w: Write)
    ensures w.count <= 1
    ensures w.count == 0 <==> !HasId(es, k)
    ensures w.count == 0 ==> w.entries == es
    ensures |w.entries| == |es| - w.count
    ensures forall e :: e in w.entries ==> e in es
    ensures forall e :: e in es && e.id != k ==> e in w.entries
  {
    match FirstMatch(es, ById(k))
    case None => Write(0, es)
    case Some(i) =>
      var rest := es[..i] + es[i + 1..];
      assert forall e :: e in es && e.id != k ==> e in rest by {
        forall e | e in es && e.id != k ensures e in rest {
          var j :| 0 <= j < |es| && es[j] == e;
          if j < i { assert rest[j] == e; } else { assert rest[j - 1] == e; }
        }
      }
      Write(1, rest)
  }

  /** Writing fields under one key leaves every other key's document as it was. */
  lemma GetAfterSetFields(es: seq<Entry>, k: Key, fields: Doc, other: Key)
    requires UniqueIds(es)
    ensures HasId(es, k) ==> Get(SetFields(es, k, fields).entries, k) == Some(Get(es, k).value + fields)
    ensures other != k ==> Get(SetFields(es, k, fields).entries, other) == Get(es, other)
  {
    var after := SetFields(es, k, fields).entries;
    if other != k {
      var before := FirstMatch(es, ById(other));
      var now := FirstMatch(after, ById(other));
      assert forall j :: 0 <= j < |es| ==> (Matches(after[j], ById(other)) <==> Matches(es[j], ById(other)));
      if before.Some? {
        assert now.Some? && now.value == before.value;
      }
    }
    if HasId(es, k) {
      var i := FirstMatch(es, ById(k)).value;
      assert FirstMatch(after, ById(k)) == Some(i);
    }
  }

  /** Deleting a key removes exactly that key's document from the map view. */
  lemma GetAfterDeleteOne(es: seq<Entry>, k: Key, other: Key)
    requires UniqueIds(es)
    ensures UniqueIds(DeleteOne(es, k).entries)
    ensures Get(DeleteOne(es, k).entries, k).None?
    ensures other != k ==> Get(DeleteOne(es, k).entries, other) == Get(es, other)
  {
    match FirstMatch(es, ById(k))
    case None =>
    case Some(i) =>
      var after := es[..i] + es[i + 1..];
      assert DeleteOne(es, k).entries == after;
      RemoveAtIndex(es, i);
      assert !HasId(after, k) by {
        forall j | 0 <= j < |after| ensures after[j].id != k {
          assert after[j] == es[Shift(j, i)];
        }
      }
      if other != k && HasId(es, other) {
        var m := FirstMatch(es, ById(other)).value;
        var m' := if m < i then m else m - 1;
        assert after[m'] == es[m];
        forall j | 0 <= j < m' ensures !Matches(after[j], ById(other)) {
          assert after[j] == es[Shift(j, i)];
        }
        assert FirstMatch(after, ById(other)) == Some(m');
      } else if other != k {
        forall j | 0 <= j < |after| ensures !Matches(after[j], ById(other)) {
          assert after[j] == es[Shift(j, i)];
        }
      }
  }

  /** The position in the original collection of the `j`-th survivor of removing position `i`. */
  function Shift(j: nat, i: nat): nat {
    if j < i then j else j + 1
  }

  lemma RemoveAtIndex(es: seq<Entry>, i: nat)
    requires i < |es| && UniqueIds(es)
    ensures forall j :: 0 <= j < |es| - 1 ==> (es[..i] + es[i + 1..])[j] == es[Shift(j, i)]
    ensures UniqueIds(es[..i] + es[i + 1..])
  {
    var after := es[..i] + es[i + 1..];
    forall j | 0 <= j < |es| - 1 ensures after[j] == es[Shift(j, i)] {
      if j < i { assert after[j] == es[..i][j]; } else { assert after[j] == es[i + 1..][j - i]; }
    }
    forall a, b | 0 <= a < b < |after| ensures after[a].id != after[b].id {
      assert after[a] == es[Shift(a, i)] && after[b] == es[Shift(b, i)];
    }
  }
}
