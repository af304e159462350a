/**
  The four route handlers reduced to their effect on the slug-to-URL
  mapping. Each takes the mapping as loaded at the start of the request and
  returns the response together with the mapping as it stands afterwards
  (what would be written back, or the same mapping when nothing is written).
 */
module Entries {
  import opened Wrappers
  import opened Url

  /** The persisted mapping from slug to target URL. */
  type Store = map<string, string>

  /** A JSON response body. */
  datatype Body =
    | Message(message: string)
    | Added(message: string, slug: string, url: string)
    | Listing(entries: Store)

  datatype Response =
    | Json(status: nat, body: Body)
    | Redirect(status: nat, location: string)

  datatype Outcome = Outcome(response: Response, store: Store)

  const Forbidden: Response := Json(403, Message("Forbidden"))
  const SlugNotFound: Response := Json(404, Message("Slug not found"))
  const InvalidUrl: Response := Json(400, Message("Invalid URL"))
  const SlugExists: Response := Json(400, Message("Slug already exists"))
  const EntryDeleted: Response := Json(200, Message("Entry deleted"))

  /** `entries[slug]` is truthy: the slug is stored with a non-empty URL. */
  predicate Present(m: Store, slug: string) {
    slug in m && m[slug] != ""
  }

  /** The body's `slug` field is truthy: present and non-empty. */
  predicate Supplied(slug: Option<string>) {
    slug.Some? && slug.value != ""
  }

  /** `slug || generateSlug()`: the supplied slug, else the generated one. */
  function Chosen(slug: Option<string>, generated: string): string {
    if Supplied(slug) then slug.value else generated
  }

  /** The store invariant: every stored URL has the accepted form. */
  predicate ValidStore(m: Store) {
    forall k | k in m :: UrlForm(m[k])
  }

  /** In a valid store a slug is truthy exactly when it is a key. */
  lemma PresentInValidStore(m: Store, slug: string)
    requires ValidStore(m)
    ensures Present(m, slug) <==> slug in m
  {
    if slug in m {
      UrlFormNonEmpty(m[slug]);
    }
  }

  /** GET /entries past the gate: the whole mapping, unchanged. */
  function ListEntries(m: Store): (o: Outcome)
    ensures o.store == m
    ensures o.response.status == 200 && o.response.Json?
    ensures o.response.body.Listing? && o.response.body.entries == m
  {
    Outcome(Json(200, Listing(m)), m)
  }

  /** GET /:slug: redirect to the stored URL when the slug is truthy in the
      mapping, otherwise 404; never changes the mapping. */
  function Resolve(m: Store, slug: string): (o: Outcome)
    ensures o.store == m
    ensures o.response.Redirect? <==> Present(m, slug)
    ensures o.response.Redirect? ==> o.response.status == 302 && o.response.location == m[slug]
    ensures !o.response.Redirect? ==> o.response == SlugNotFound
  {
    if Present(m, slug) then Outcome(Redirect(302, m[slug]), m)
    else Outcome(SlugNotFound, m)
  }

  /** POST /entry past the gate. `generated` is what the slug generator
      would return for this request. */
  function CreateEntry(m: Store, url: Option<string>, slug: Option<string>, generated: string): (o: Outcome)
    // the URL is checked first, whatever the slug
    ensures !(url.Some? && UrlForm(url.value)) ==> o == Outcome(InvalidUrl, m)
    // only a supplied slug is checked against the mapping
    ensures (url.Some? && UrlForm(url.value) && Supplied(slug) && Present(m, slug.value))
              ==> o == Outcome(SlugExists, m)
    ensures (o.response.status == 201)
              <==> (url.Some? && UrlForm(url.value) && !(Supplied(slug) && Present(m, slug.value)))
    ensures o.response.status == 201 ==>
              var c := Chosen(slug, generated);
              && o.response == Json(201, Added("Entry added", c, url.value))
              && o.store.Keys == m.Keys + {c}
              && o.store[c] == url.value
              && forall k | k in m && k != c :: o.store[k] == m[k]
    // the slug written is the supplied one when truthy, else the generated one
    ensures (o.response.status == 201 && Supplied(slug))
              ==> o.response.body.slug == slug.value
    ensures (o.response.status == 201 && !Supplied(slug))
              ==> o.response.body.slug == generated
  {
    if !IsValidUrl(url) then Outcome(InvalidUrl, m)
    else
      var newSlug := Chosen(slug, generated);
      if Supplied(slug) && Present(m, slug.value) then Outcome(SlugExists, m)
      else Outcome(Json(201, Added("Entry added", newSlug, url.value)), m[newSlug := url.value])
  }

  /** DELETE /entry/:slug past the gate. */
  function DeleteEntry(m: Store, slug: string): (o: Outcome)
    ensures Present(m, slug) ==>
              && o.response == EntryDeleted
              && o.store.Keys == m.Keys - {slug}
              && forall k | k in o.store :: o.store[k] == m[k]
    ensures !Present(m, slug) ==> o == Outcome(SlugNotFound, m)
  {
    if Present(m, slug) then Outcome(EntryDeleted, m - {slug})
    else Outcome(SlugNotFound, m)
  }

  /** Creating keeps the store invariant. */
  lemma CreatePreservesValid(m: Store, url: Option<string>, slug: Option<string>, generated: string)
    requires ValidStore(m)
    ensures ValidStore(CreateEntry(m, url, slug, generated).store)
  {
  }

  /** Deleting keeps the store invariant. */
  lemma DeletePreservesValid(m: Store, slug: string)
    requires ValidStore(m)
    ensures ValidStore(DeleteEntry(m, slug).store)
  {
  }

  /** After a successful create, resolving the chosen slug redirects to the
      URL just stored, even when a generated slug overwrote an entry. */
  lemma ResolveAfterCreate(m: Store, url: Option<string>, slug: Option<string>, generated: string)
    requires CreateEntry(m, url, slug, generated).response.status == 201
    ensures var o := CreateEntry(m, url, slug, generated);
            Resolve(o.store, Chosen(slug, generated)).response == Redirect(302, url.value)
  {
    UrlFormNonEmpty(url.value);
  }

  /** A valid store only ever redirects to an accepted URL. */
  lemma ResolveRedirectsToValidUrl(m: Store, slug: string)
    requires ValidStore(m)
    ensures Resolve(m, slug).response.Redirect? ==> UrlForm(Resolve(m, slug).response.location)
  {
  }

  /** After deleting a slug, resolving it answers 404. */
  lemma ResolveAfterDelete(m: Store, slug: string)
    ensures Resolve(DeleteEntry(m, slug).store, slug).response == SlugNotFound
  {
  }

  /** Deleting the slug a create has just added under a fresh key gives back
      the mapping as it was before the create. */
  lemma DeleteUndoesCreate(m: Store, url: Option<string>, slug: Option<string>, generated: string)
    requires Chosen(slug, generated) !in m
    requires CreateEntry(m, url, slug, generated).response.status == 201
    ensures var c := Chosen(slug, generated);
            var o := DeleteEntry(CreateEntry(m, url, slug, generated).store, c);
            o.response == EntryDeleted && o.store == m
  {
    var c := Chosen(slug, generated);
    var s := CreateEntry(m, url, slug, generated).store;
    UrlFormNonEmpty(url.value);
    assert Present(s, c);
    assert DeleteEntry(s, c).store == m;
  }

  /** A generated slug is not checked against the mapping: when it is already
      a key, the create succeeds and replaces that entry's URL. */
  lemma GeneratedSlugOverwrites(m: Store, url: string, generated: string)
    requires generated in m
    requires UrlForm(url)
    ensures var o := CreateEntry(m, Some(url), None, generated);
            o.response.status == 201 && o.store[generated] == url && |o.store| == |m|
  {
    var o := CreateEntry(m, Some(url), None, generated);
    assert o.store.Keys == m.Keys;
  }
}
