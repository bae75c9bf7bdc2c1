/** Requests and responses of the Express handlers, reduced to what they decide on. */
module Http {
  import opened Documents

  /** A parsed JSON request body, restricted to its string-valued fields. */
  type Body = map<string, string>

  /** JavaScript truthiness of `req.body[f]` for a string field: present and non-empty. */
  predicate Truthy(body: Body, f: string) {
    f in body && body[f] != ""
  }

  /** The JSON sent back: `{error: …}`, `{id: …}`, one document, the whole collection,
      nothing (`sendStatus(204)`), Express's own reply to a request no route matches, or
      the `Allow` list Express's router sends back for `OPTIONS`. */
  datatype Payload =
    | ErrorMessage(message: string)
    | CreatedId(id: Key)
    | OneDocument(entry: Entry)
    | AllDocuments(entries: seq<Entry>)
    | NoContent
    | NoRoute
    | Allowed(methods: seq<string>)

  datatype Response = Response(status: int, payload: Payload)

  /** A handler's response together with the collection it leaves behind. */
  datatype Reply = Reply(response: Response, store: Store)

  function Error(status: int, message: string): Response {
    Response(status, ErrorMessage(message))
  }

  /** `after` is `before` with the record keyed `k` holding the truthy fields of `body`
      among `fields`, and every other field and every other record as it was: the
      effect of a partial update that `$set`s the supplied fields. */
  ghost predicate ChangedOnlySupplied(before: seq<Entry>, after: seq<Entry>, k: Key, fields: set<string>, body: Body) {
    && |after| == |before|
    && (forall j :: 0 <= j < |before| ==> after[j].id == before[j].id)
    && (forall j :: 0 <= j < |before| && before[j].id != k ==> after[j] == before[j])
    && (forall j :: 0 <= j < |before| && before[j].id == k ==> Overwrites(before[j].doc, after[j].doc, fields, body))
  }

  ghost predicate Overwrites(prior: Doc, updated: Doc, fields: set<string>, body: Body) {
    forall f ::
      && (f in updated <==> f in prior || (f in fields && Truthy(body, f)))
      && (f in updated ==> updated[f] == if f in fields && Truthy(body, f) then Str(body[f]) else prior[f])
  }
}
