/**
  The four endpoints as the server wires them: list, create and delete pass
  the bearer-token gate first, resolve is public. A run applies a sequence
  of requests one after another, each seeing the mapping the previous one
  left behind.
 */
module Service {
  import opened Wrappers
  import opened Url
  import opened Auth
  import opened Entries

  /** One inbound request. `auth` is the Authorization header; for a create,
      `url` and `requested` are the body's `url` and `slug` fields and
      `generated` is what the slug generator would return for it. */
  datatype Request =
    | ListRequest(auth: Option<string>)
    | ResolveRequest(slug: string)
    | CreateRequest(auth: Option<string>, url: Option<string>, requested: Option<string>, generated: string)
    | DeleteRequest(auth: Option<string>, slug: string)

  /** Answer one request against the mapping `m`, with `token` configured. */
  function Handle(m: Store, token: string, req: Request): (o: Outcome)
    // a guarded request with any header but "Bearer " + token is refused
    // before anything else is looked at, and nothing changes
    ensures (!req.ResolveRequest? && req.auth != Some(BearerPrefix + token))
              ==> o == Outcome(Forbidden, m)
    ensures req.ResolveRequest? ==> o == Resolve(m, req.slug)
    ensures req.ListRequest? && req.auth == Some(BearerPrefix + token) ==> o == ListEntries(m)
    ensures (req.CreateRequest? && req.auth == Some(BearerPrefix + token))
              ==> o == CreateEntry(m, req.url, req.requested, req.generated)
    ensures (req.DeleteRequest? && req.auth == Some(BearerPrefix + token))
              ==> o == DeleteEntry(m, req.slug)
  {
    match req
    case ResolveRequest(slug) => Resolve(m, slug)
    case ListRequest(auth) =>
      if Authenticate(auth, token) then ListEntries(m) else Outcome(Forbidden, m)
    case CreateRequest(auth, url, slug, generated) =>
      if Authenticate(auth, token) then CreateEntry(m, url, slug, generated) else Outcome(Forbidden, m)
    case DeleteRequest(auth, slug) =>
      if Authenticate(auth, token) then DeleteEntry(m, slug) else Outcome(Forbidden, m)
  }

  /** The mapping after handling `reqs` in order, starting from `m`. */
  function Run(m: Store, token: string, reqs: seq<Request>): Store
    decreases |reqs|
  {
    if |reqs| == 0 then m
    else Run(Handle(m, token, reqs[0]).store, token, reqs[1..])
  }

  /** Handling one request keeps the store invariant. */
  lemma HandlePreservesValid(m: Store, token: string, req: Request)
    requires ValidStore(m)
    ensures ValidStore(Handle(m, token, req).store)
  {
    match req
    case CreateRequest(auth, url, slug, generated) =>
      CreatePreservesValid(m, url, slug, generated);
    case DeleteRequest(auth, slug) =>
      DeletePreservesValid(m, slug);
    case _ =>
  }

  /** Every stored URL has the accepted form after any sequence of requests
      that starts from such a mapping (the empty one included). */
  lemma {:induction false} RunPreservesValid(m: Store, token: string, reqs: seq<Request>)
    requires ValidStore(m)
    ensures ValidStore(Run(m, token, reqs))
    decreases |reqs|
  {
    if |reqs| > 0 {
      HandlePreservesValid(m, token, reqs[0]);
      RunPreservesValid(Handle(m, token, reqs[0]).store, token, reqs[1..]);
    }
  }

  /** Only create and delete change the mapping; list and resolve read it. */
  lemma ReadOnlyRequests(m: Store, token: string, req: Request)
    requires req.ListRequest? || req.ResolveRequest?
    ensures Handle(m, token, req).store == m
  {
  }

  lemma ExampleUrlAccepted()
    ensures UrlForm("https://example.com")
  {
    var url := "https://example.com";
    assert url[..8] == "https://";
    assert url[8..] == "example.com";
  }

  /** The walk-through the service is meant to support: create "abc" for
      https://example.com, see it listed and resolved, delete it, and see it
      gone from the listing. */
  lemma CreateListResolveDelete(m: Store, token: string)
    requires "abc" !in m
    ensures
      var auth := Some(BearerPrefix + token);
      var url := "https://example.com";
      var created := Handle(m, token, CreateRequest(auth, Some(url), Some("abc"), "unused"));
      var listed := Handle(created.store, token, ListRequest(auth));
      var resolved := Handle(listed.store, token, ResolveRequest("abc"));
      var deleted := Handle(resolved.store, token, DeleteRequest(auth, "abc"));
      var relisted := Handle(deleted.store, token, ListRequest(auth));
      && created.response == Json(201, Added("Entry added", "abc", url))
      && listed.response.body.entries["abc"] == url
      && resolved.response == Redirect(302, url)
      && deleted.response == EntryDeleted
      && "abc" !in relisted.response.body.entries
      && relisted.store == m
  {
    var auth := Some(BearerPrefix + token);
    var url := "https://example.com";
    ExampleUrlAccepted();
    var created := Handle(m, token, CreateRequest(auth, Some(url), Some("abc"), "unused"));
    assert created == CreateEntry(m, Some(url), Some("abc"), "unused");
    assert created.store == m["abc" := url];
    var listed := Handle(created.store, token, ListRequest(auth));
    assert listed == ListEntries(created.store);
    var resolved := Handle(listed.store, token, ResolveRequest("abc"));
    assert resolved == Resolve(created.store, "abc");
    var deleted := Handle(resolved.store, token, DeleteRequest(auth, "abc"));
    assert deleted == DeleteEntry(created.store, "abc");
    DeleteUndoesCreate(m, Some(url), Some("abc"), "unused");
    assert deleted.store == m;
  }
}
