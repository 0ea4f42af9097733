# snapurl alias registry, modelled in Dafny

This project models the alias allocation and resolution engine of the snapurl
URL shortener: the five request handlers of `server/controllers/url.js` over
the store of URL documents described by `server/models/url.js`.

- `records.dfy` (module `Records`): the stored document (`shortId`, `alias`,
  `redirectURL`, `visitHistory`), optional fields, and the JavaScript
  truthiness the handlers test (`!body.url`, `!existingUrl.shortId`,
  `existingUrl.alias || null`).
- `patterns.dfy` (module `Patterns`): the alias regular expression
  `^(?=.*[a-z])(?=.*[A-Z])(?=.*\d)[A-Za-z\d]{8,}$`, modelled as its
  three lookaheads and the anchored class run (with `.` not matching line
  terminators), and proved equal to the plain rule "at least 8 characters,
  only ASCII letters and digits, at least one lower-case letter, one
  upper-case letter and one digit". Also the `/\+/g` removal used for
  preview redirects.
- `registry.dfy` (module `Registry`): `findOne` as the first matching record in
  store order; the typed results (`Validation`, `Conflict`, `NotFound` and
  one success tag per success branch); the store invariant `Consistent`; and
  each handler as a function from the store contents and the request to the
  reply and the new store contents. `getAnalytics` and `getPreview` only
  read, so they are plain functions returning a result.
- `properties.dfy` (module `Properties`): the branch-by-branch promises of each
  handler, idempotence of both creation paths, the effect of redirects on
  analytics, and the invariant over any sequence of requests. The invariant
  says: at most one record per destination, unique short ids, unique aliases,
  well-formed records, and records, identifiers and visit histories that only
  ever grow.
- `store.dfy` (module `UrlStore`): class `Store`, whose field `records` is
  the collection. The three handlers that write are methods that look up,
  branch, then save one record in place or create one. Each method's
  postcondition ties its reply and the new `records` to the handler function,
  and keeps `Valid()`.

`nanoid(8)` is a parameter `freshId`. The caller promises it is eight
characters of the `nanoid` alphabet `A-Za-z0-9_-` and not yet a short id.
`Date.now()` is a parameter `now`. The route table (`server/routes/url.js`)
maps `POST /` to `GenerateNewShortUrl`, `POST /custom` to
`GenerateNewCustomUrl`, `GET /:id` to `RedirectToUrl`, `GET /analytics/:id` to
`GetAnalytics` and `GET /preview/:id` to `GetPreview`.

Notes on how the code behaves:

- The reply for a newly created short link carries no alias (lines 43-46).
- An alias conflict is answered with status 400, like a validation error
  (lines 75-77, 84-86).
- The three success replies of the custom handler (lines 92-95, 99-102,
  113-116) carry the same message; only the status code of the last differs.
  The model still tags the three branches differently (`Attached`,
  `Unchanged`, `Created`).
- In the custom path, once the two earlier tests for an existing record fail,
  the third test (`existingUrl.alias === body.alias`, line 98) always holds.
  So no existing record ever reaches the create at line 106, and the model
  writes that third branch as the `else`.
- Short ids and aliases are unique each within their own field, not against
  each other. Line 73 checks only the `alias` field, so a custom alias may
  equal another record's short id. A lookup by identifier then goes to
  whichever record comes first. `AliasMayEqualOtherShortId` shows this.

## Model

| member | source | states |
|---|---|---|
| Patterns.AliasRegexMeansValidAlias | server/controllers/url.js:5 | the alias pattern accepts a string exactly when it has at least 8 characters, all ASCII letters or digits, with a lower-case letter, an upper-case letter and a digit |
| Patterns.AliasExamples | server/controllers/url.js:5 | "abc12345" (no upper-case letter) and "AB1" (too short) are rejected; "Abcdefg1" is accepted |
| Patterns.StripPlus | server/controllers/url.js:130 | the cleaned identifier contains no `+` |
| Patterns.StripPlusCounts | server/controllers/url.js:130 | only `+` characters are removed: every other character keeps its number of occurrences, and the length drops by the number of `+` |
| Patterns.StripPlusConcat | server/controllers/url.js:130 | removal works piece by piece, so kept characters stay in their order |
| Patterns.StripPlusNoPlus | server/controllers/url.js:130 | an identifier without `+` is unchanged |
| Patterns.StripPlusJoin | server/controllers/url.js:130 | removing a single `+` between two plain parts joins them |
| Patterns.StripPlusExample | server/controllers/url.js:129-130 | "abc+123" becomes "abc123" |
| Records.Truthy | server/controllers/url.js:11 | definition with no contract of its own: JavaScript truthiness of a string field (`!body.url` here, and at lines 18, 59, 63, 83, 89), false for null, a missing field and the empty string; `StoredFieldsTruthy` gives its meaning on stored records |
| Records.OrNull | server/controllers/url.js:23 | definition with no contract of its own: the alias sent back, or null when it is falsy (also line 30); `StoredFieldsTruthy` gives its meaning on stored records |
| Registry.StoredFieldsTruthy | server/controllers/url.js:18-30 | on a well-formed record (as `Consistent` keeps every stored one) the truthiness tests at lines 18, 83 and 89 are presence tests, and the alias sent back at lines 23 and 30 is the stored alias, because a `nanoid(8)` short id and an accepted alias are never empty |
| Patterns.LookaheadFinds | server/controllers/url.js:5 | a succeeding lookahead `(?=.*[cls])` has found a character of the class in the string; the converse on letters and digits is `LookaheadFindsMeans` |
| Patterns.AliasRegexTest | server/controllers/url.js:67 | `aliasRegex.test`: an accepted alias has at least 8 characters, all ASCII letters or digits; the full characterisation is `AliasRegexMeansValidAlias` |
| Registry.Matches | server/controllers/url.js:137-139 | definition with no contract of its own: the three query shapes (also lines 15, 73, 80), the identifier query matching a record whose short id or alias is the identifier; `FindOne`, `GetAnalytics` and `GetPreview` state their contracts in its terms |
| Registry.ShortenUrl | server/controllers/url.js:7-46 | the short-link handler's branches: an error exactly for a falsy url, leaving the store as it was; AlreadyExists changes nothing; the store grows by one record exactly on NewlyCreated. Its branch-by-branch promises are the `Short*` lemmas and `ShortIdempotent` |
| Registry.CustomizeUrl | server/controllers/url.js:55-116 | the custom handler's branches: every error leaves the store as it was; a success needs a truthy url and an alias the pattern accepts and answers with that alias; Unchanged changes nothing; the store grows by one record exactly on Created. The branch lemmas from `AliasTakenConflict` to `CustomIdempotent` say the rest |
| Registry.RedirectTo | server/controllers/url.js:125-157 | the redirect handler: the store keeps its number of records; a preview answer exactly for an identifier with `+`, with the store unchanged; the only error is NotFound, with the store unchanged. `RedirectRecordsOneVisit` and `RedirectPreservesConsistent` say which record changes and how |
| Registry.FindOne | server/controllers/url.js:137-139 | the result is the first record matching the query, and it is absent exactly when no record matches |
| Registry.GetAnalytics | server/controllers/url.js:166-183 | NotFound exactly when no record has the identifier as short id or alias; otherwise the history of a matching record and a click count equal to its length |
| Registry.GetPreview | server/controllers/url.js:192-208 | NotFound exactly when no record matches; otherwise a matching record's destination |
| Properties.MissingUrlRejected | server/controllers/url.js:11-13 | a missing or empty url gives Validation in the short path and in the custom path (lines 59-61), with the store unchanged |
| Properties.InvalidAliasRejected | server/controllers/url.js:63-71 | a missing or empty alias is AliasRequired, one breaking the format rule is AliasMalformed, the store unchanged |
| Properties.ShortReturnsExistingId | server/controllers/url.js:28-32 | a destination whose record has a short id gets that id and its alias back, tagged AlreadyExists, store unchanged |
| Properties.ShortAssignsFreshId | server/controllers/url.js:17-25 | a record without a short id receives the fresh id, tagged Generated; its other fields and all other records are unchanged |
| Properties.ShortCreatesRecord | server/controllers/url.js:35-46 | with no record for the destination, one is appended with the fresh id, no alias and an empty history, tagged NewlyCreated |
| Properties.ShortIdempotent | server/controllers/url.js:15-46 | a second short-link request for the same url returns the same id and alias, tagged AlreadyExists, and changes nothing |
| Properties.CustomAnswersAlias | server/controllers/url.js:92-116 | every successful custom request answers with the requested alias |
| Properties.AliasTakenConflict | server/controllers/url.js:73-78 | an alias held by a record of another destination is a Conflict, store unchanged |
| Properties.OtherAliasConflict | server/controllers/url.js:80-87 | a destination whose record has a different alias gets a Conflict, store unchanged; the alias-taken rule is reported first when it applies |
| Properties.AliasAttached | server/controllers/url.js:89-96 | a record without an alias receives the requested one, tagged Attached, nothing else changing, unless another destination holds that alias (Conflict) |
| Properties.AliasAlreadyHeld | server/controllers/url.js:98-103 | requesting the alias a destination already has answers with it and changes nothing |
| Properties.CustomCreatesOnlyForNewUrl | server/controllers/url.js:80-116 | a record is created exactly when url and alias are valid and no record has the destination or the alias; it has no short id, the alias and no visits; every other outcome except Attached leaves the store unchanged |
| Properties.CustomIdempotent | server/controllers/url.js:80-103 | repeating a successful custom request answers with the alias, tagged Unchanged, and changes nothing |
| Properties.PlusGoesToPreview | server/controllers/url.js:129-135 | an identifier with `+` gives the preview page for the identifier without `+`, whatever the store holds, store unchanged |
| Properties.RedirectRecordsOneVisit | server/controllers/url.js:137-157 | otherwise the first record matching by short id or alias gets exactly one visit stamped `now` at the end of its history, the visitor goes to its destination, other records unchanged |
| Properties.RedirectNotFound | server/controllers/url.js:141-143 | an identifier no record carries gives NotFound and no change |
| Properties.StoredIdentifiersRedirect | server/controllers/url.js:129-139 | every stored short id and alias is resolved to a destination, never diverted to the preview page |
| Properties.VisitShowsInAnalytics | server/controllers/url.js:145-155 | after a redirect, analytics for the identifier report one more click with `now` as the last entry |
| Properties.RepeatedVisitsAllRecorded | server/controllers/url.js:145-155 | N redirects to one record append exactly those N timestamps in order, and no other record changes |
| Properties.AnalyticsOfRecord | server/controllers/url.js:174-183 | for an identifier resolving to a record, analytics give its visit count and history and preview gives its destination |
| Properties.SavePreservesConsistent | server/models/url.js:5-8 | saving a record that keeps its destination and takes no other record's short id or alias keeps the store invariant |
| Properties.CreatePreservesConsistent | server/models/url.js:5-8 | creating a record with a new destination and unused identifiers keeps the store invariant |
| Properties.ShortenPreservesConsistent | server/controllers/url.js:15-41 | given a fresh id, the short-link handler keeps the invariant and only extends the store |
| Properties.CustomizePreservesConsistent | server/controllers/url.js:73-111 | the custom handler keeps the invariant and only extends the store |
| Properties.RedirectPreservesConsistent | server/controllers/url.js:145-155 | a redirect keeps the invariant and the number of records; only the record the identifier resolves to may change, and it gains exactly the visit `now` at the end of its history |
| Properties.RunPreservesConsistent | server/controllers/url.js:7-208 | over any sequence of requests with fresh ids: one record per destination, unique short ids and aliases, and records, identifiers and histories only grow |
| Properties.AliasMayEqualOtherShortId | server/controllers/url.js:73-78 | an alias equal to another destination's short id is accepted, the store stays consistent, and the identifier resolves to the earlier record |
| Properties.AliasMayEqualOtherShortIdExample | server/controllers/url.js:137-139 | the same with "Abcdefg1": the new alias for b.com previews as a.com |
| Properties.SecondAliasForUrlConflicts | server/controllers/url.js:80-87 | after creating url with one alias, a second alias for that url is a Conflict |
| Properties.AliasForSecondUrlConflicts | server/controllers/url.js:73-103 | after creating url with an alias, repeating the request is answered Unchanged and the same alias for another url is a Conflict |
| UrlStore.Store.GenerateNewShortUrl | server/controllers/url.js:7-46 | the reply and the new records are those of the short-link handler; the invariant holds and the store only grows |
| UrlStore.Store.GenerateNewCustomUrl | server/controllers/url.js:55-116 | the reply and the new records are those of the custom handler; the invariant holds and the store only grows |
| UrlStore.Store.RedirectToUrl | server/controllers/url.js:125-157 | the reply and the new records are those of the redirect handler; the invariant holds and the store only grows |

## Left out

- HTTP status codes, JSON bodies and message texts: each outcome is a result tag.
- The generic 500 handlers (lines 47-52, 117-122, 158-163, 184-189, 209-214): store failures are outside the model.
- A short-id collision caught by the store's unique index: excluded by the freshness precondition on `freshId`, which stands in for `nanoid(8)`.
- Randomness of `nanoid` and the clock: `freshId` and `now` are parameters.
- Concurrency: the non-atomic find-then-create race and the atomicity of `$push`. Every handler runs alone.
- Uniqueness of absent identifiers: `ShortIdsUnique` and `AliasesUnique` require uniqueness only among records that have the field. The unique indexes of `server/models/url.js:5-6` are not sparse, so MongoDB also counts null as a value. It would refuse a second record created with `alias: null` (line 40) or `shortId: null` (line 107), and the handler would answer 500. The model lets such records exist side by side, as `ShortIdsUnique` and `AliasesUnique` state, and leaves the index failure with the other store failures.
- Store order: `findOne` is modelled as the first match in insertion order. MongoDB does not promise that order, and it only matters in the alias/short-id overlap shown above.
- Request bodies that are not strings (numbers, objects): `url` and `alias` are optional strings.
- The `process.env` prefix of the preview redirect: the result carries only the cleaned identifier.
- `createdAt`/`updatedAt` and the store's `_id`: a record is identified by its position.
- The store's timestamp objects `{timestamp}` are stored as bare integers.
- The React front end, the Express and MongoDB setup, and the route table beyond the mapping listed above: UI and process plumbing.
