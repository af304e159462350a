# Slug manager: a Dafny model

This project models the request logic of a small URL-shortening service. The
service keeps a mapping from short slugs to target URLs. It offers four HTTP
endpoints: list all entries, resolve a slug and redirect, create an entry,
and delete an entry. List, create and delete sit behind a bearer-token gate;
resolve is public.

Once the web framework and file access are stripped away, what remains is
modelled as pure functions:

- `Auth` holds the gate: a character-level `StartsWith` and `Authenticate`,
  proved to allow exactly the header `"Bearer " + token`.
- `CharClasses` lists the ECMAScript classes `\s` and line terminator
  explicitly.
- `Regex` is a small model of anchored regular expressions: literals, `.`,
  negated classes, and the `?` and `*` quantifiers. It includes a
  language-membership matcher.
- `Url` writes the create endpoint's pattern `^https?://[^\s$.?#].[^\s]*$`
  in that model. It proves the pattern equal to a direct description,
  `UrlForm`.
- `Entries` holds the four handlers as `(mapping, inputs) -> Outcome(response,
  mapping)`, plus the store invariant "every stored URL has the accepted
  form".
- `Service` dispatches requests through the gate and runs sequences of
  requests. It proves the store invariant holds after any run.

The mapping is loaded at the start of each request and saved at the end of
a mutating one. It is therefore a parameter in, and a result out, of each
handler. The slug generator is random, so the slug it would return is an
unconstrained input carried by the create request.

Three details of the code shape the model:

- The `.` after the first host character accepts a space, so a URL such as
  `"http://a b"` passes the check and is stored
  (`Url.SpaceAfterHostStartAccepted`).
- A slug is looked up by testing whether `entries[slug]` is truthy, so a key
  whose value is the empty string counts as absent (`Entries.Present`). When
  every stored URL is accepted, this agrees with key membership
  (`Entries.PresentInValidStore`).
- The generator takes `substr(2, 8)` of a base-36 rendering, which gives at
  most 8 characters and fewer when the rendering is short. The model puts no
  constraint on the generated slug.

## Model

| member | source | states |
|---|---|---|
| Auth.StartsWith | index.js:12 | The prefix test holds exactly when the prefix is no longer than the header and equals the header's first characters. |
| Auth.Authenticate | index.js:10-19 | A request passes the gate if and only if the header is exactly "Bearer " followed by the configured token. A missing header, a missing prefix or a different remainder is refused. |
| Regex.LiteralThen | index.js:58 | A literal word followed by a pattern matches exactly the strings that start with that word and continue with a match of the pattern. |
| Regex.ManyAlone | index.js:58 | A starred class on its own matches exactly the strings every character of which the class accepts. |
| Url.AfterSchemePatternMeaning | index.js:58 | `[^\s$.?#].[^\s]*` matches a string if and only if the first character is a host start, the second is not a line terminator, and the rest has no whitespace. |
| Url.UrlPatternMeaning | index.js:58 | The pattern accepts a string if and only if the string starts with "http://" or "https://" and continues with at least two characters. The first of these is not whitespace and not one of `$ . ? #`, the second is not a line terminator, and everything after them is free of whitespace. |
| Url.IsValidUrl | index.js:58 | The create guard accepts the url field exactly when it is present, is a string and has the form above. |
| Url.UrlFormNonEmpty | index.js:58 | Every accepted URL has at least nine characters, so a stored one is always truthy. |
| Url.SpaceAfterHostStartAccepted | index.js:58 | "http://a b" is accepted although it contains a space. |
| Entries.PresentInValidStore | index.js:46 | When every stored URL is accepted, the truthiness test on `entries[slug]` agrees with key membership. |
| Entries.ListEntries | index.js:37-40 | Listing returns status 200 with the whole mapping and leaves the mapping unchanged. |
| Entries.Resolve | index.js:43-51 | Resolve never changes the mapping. It redirects (302) to the stored URL exactly when the slug is present, and otherwise answers 404 "Slug not found". |
| Entries.Chosen | index.js:63 | A plain definition with no contract of its own: `slug \|\| generateSlug()` picks the supplied slug when the body's slug is truthy, and the generated one otherwise. `Entries.CreateEntry` states that a successful create writes and reports exactly this slug. |
| Entries.CreateEntry | index.js:55-73 | An invalid URL gives 400 "Invalid URL" with the mapping unchanged, even when the slug is a duplicate. A supplied slug already present gives 400 "Slug already exists" with the mapping unchanged. Otherwise the answer is 201 with the chosen slug and URL. The chosen slug is the supplied one when truthy, else the generated one. That slug is then mapped to the URL, it is the only key added, and no other key's URL changes. |
| Entries.DeleteEntry | index.js:77-87 | Deleting a present slug answers 200 "Entry deleted", removes exactly that key and keeps every other URL. Deleting an absent slug answers 404 "Slug not found" with the mapping unchanged. |
| Entries.CreatePreservesValid | index.js:58-70 | Create keeps the invariant that every stored URL is accepted. |
| Entries.DeletePreservesValid | index.js:80-82 | Delete keeps the invariant that every stored URL is accepted. |
| Entries.ResolveAfterCreate | index.js:43-51 | At handler level, after a successful create, resolving the chosen slug redirects to the created URL. In the running service the slug "entries" is shadowed by the list route (see Left out). |
| Entries.ResolveRedirectsToValidUrl | index.js:46-47 | In a valid mapping, every redirect targets an accepted URL. |
| Entries.ResolveAfterDelete | index.js:77-87 | After deleting a slug, resolving it answers 404. |
| Entries.DeleteUndoesCreate | index.js:63-83 | Creating under a slug not yet in the mapping and then deleting that slug gives back the original mapping. |
| Entries.GeneratedSlugOverwrites | index.js:63-69 | A generated slug is not checked against the mapping. If it is already a key, create succeeds, replaces that entry's URL and adds no key. |
| Service.Handle | index.js:37-87 | Guarded requests without exactly "Bearer " + token get 403 "Forbidden" and leave the mapping unchanged, before the URL or slug is examined. Resolve needs no token. An authorised request gets its handler's outcome. |
| Service.HandlePreservesValid | index.js:37-87 | No single request breaks the invariant that every stored URL is accepted. |
| Service.RunPreservesValid | index.js:37-87 | Starting from a valid mapping, for example the empty one, every stored URL is accepted after any sequence of requests. |
| Service.ReadOnlyRequests | index.js:37-51 | List and resolve never change the mapping. |
| Service.CreateListResolveDelete | index.js:37-87 | Creating "abc" for https://example.com answers 201. The entry then appears in the listing and resolve redirects to it. Deleting it answers 200, and the listing afterwards no longer contains "abc". |

## Left out

- Framework mechanics are not modelled: middleware chaining, JSON body parsing and the redirect helper. Responses are a datatype of status and body.
- Route matching is not modelled. `ResolveRequest(s)` stands for a `GET /s` that reached the slug route (index.js:43). The list route `GET /entries` (index.js:37) is registered first, so a slug named "entries" can be created (index.js:63-69) but is never resolved by the running service; the model's `Resolve` would redirect it.
- File persistence is not modelled: reading, parsing and writing the JSON file (index.js:22-33). Each handler takes the loaded mapping and returns the one to save. The fallback to an empty mapping on a missing or corrupt file is simply the empty map as a starting point.
- A file holding JSON that is not an object is not modelled.
- The slug generator (index.js:94-96) uses a floating-point random number rendered in base 36. It is replaced by an unconstrained input string.
- Environment defaults and server start-up are not modelled (index.js:4-5, 90-92). The token is a parameter.
- Concurrent requests are not modelled. Requests run strictly one after another, so lost updates from interleaved load and save cycles are not represented.
- JavaScript prototype quirks are not modelled: keys such as `constructor` read as truthy without being stored. Membership is map membership plus a non-empty value.
- Slug body values that are truthy but not strings (numbers, objects) are not modelled. The `slug` field is `Option<string>`, and absent or empty means not supplied. A `url` field that is absent or not a string is `None`, and both give "Invalid URL".
- Url.UrlPatternMeaning: JavaScript strings and this regex (no `u` flag) work on UTF-16 code units, while a Dafny `char` is a Unicode scalar value. For characters outside the Basic Multilingual Plane, which are surrogate pairs in JavaScript, "one character" differs between the two.
- Storage write failures are not modelled. They would surface as a generic server error.
