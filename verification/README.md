# SKillX backend, modelled in Dafny

SKillX is a small marketplace backend (Express routes over Mongoose models). Users
post gigs and apply to them. They advertise skill trades and send each other
exchange requests that can be accepted or rejected. They keep a profile whose
counters the other routes bump as a side effect. This project models the six
route files and the five schemas they use. The MongoDB collections are replaced
by an in-memory store:

- `Db.Store` is a class holding one sequence of documents per collection, a map
  of profiles keyed by e-mail (the schema's unique index) and a counter that
  hands out ids and creation stamps.
- Because ids and stamps come from one counter, `sort({createdAt: -1})` is the
  reverse of insertion order. `NewestFirst` is proved to be a permutation that
  is sorted newest first whenever the store's invariant `Valid()` holds.
- Handlers that write are methods that take the store and say, in their
  `ensures`, the whole new state. Every one of them preserves `Valid()`.
  Handlers that only read are functions with `reads db`.
- The best-effort profile update that follows a gig, entry or request write is
  a `$inc` upsert. It is modelled by `Db.Increment`. Whether that side write
  succeeded is a boolean parameter (`statsWriteOk`). When it fails, the error
  is logged and swallowed, and the primary write still answers success.
- The Mongoose behaviour the routes rely on is written out:
  - required fields and their defaults;
  - the `trim`/`lowercase` setters on exchange-request addresses, which run both when a request is stored and when a listing query on those paths is cast;
  - the status enum;
  - the upsert inserting a default profile.

  A failed validation is a `ServerError` with nothing stored, as the route's
  catch block answers 500.
- JavaScript's value semantics are written out too:
  - truthiness of an optional string (`Truthy`);
  - `String.prototype.trim`, using ECMAScript's whitespace set;
  - `split(',')`, where the empty string gives `['']`;
  - `join`.

Where the code and the product's design disagree, the model follows the code:

- deleting a gig leaves its poster's `gigsPosted` counter unchanged;
- creating a gig application checks neither that the gig exists, nor that the
  applicant is not the owner, nor that the applicant has not already applied;
- a request can move from accepted back to pending, and a second acceptance is
  then counted again (`ExchangeRequestRoutes.AcceptReopenAccept`);
- the sender of an exchange request is counted under the address as typed,
  while the stored request holds the trimmed, lower-cased address
  (`ExchangeRequestRoutes.SenderCountedUnderRawAddress`).

## Model

| member | source | states |
|---|---|---|
| JsString.Trim | backend/src/routes/profile.js:35 | the result has no leading or trailing whitespace and is no longer than the input |
| JsString.TrimTrimmed | backend/src/models/ExchangeRequest.js:8 | trimming a string without surrounding whitespace changes nothing |
| JsString.TrimLeadingSpace | backend/src/routes/profile.js:35 | a space in front of a piece does not change its trim |
| JsString.TrimKeepsOut | backend/src/routes/profile.js:35 | trimming never introduces a character the input lacked |
| JsString.TrimEmptyIff | backend/src/models/ExchangeRequest.js:5-17 | a string trims to '' exactly when all its characters are whitespace (both directions) |
| JsString.Lower | backend/src/models/ExchangeRequest.js:9 | same length, no upper-case letter left, whitespace kept in place |
| JsString.LowerValue | backend/src/models/ExchangeRequest.js:9 | every character outside A-Z is kept as it is and every A-Z letter becomes its lower-case letter (code point + 32) |
| JsString.Split | backend/src/routes/profile.js:35 | at least one piece, and no piece contains the separator |
| JsString.JoinSplit | backend/src/routes/profile.js:35 | joining the pieces of a split with the separator gives the original string |
| JsString.SplitNoSep | backend/src/routes/profile.js:35 | a string without the separator splits into itself alone |
| JsString.SplitAfterPiece | backend/src/routes/profile.js:35 | a separator-free piece followed by the separator splits off as the first piece |
| JsString.SplitJoin | backend/src/routes/profile.js:35 | splitting a join of separator-free pieces gives back the pieces |
| StatusEnum.Parse | backend/src/routes/exchangeRequests.js:78-81 | accepts exactly 'pending', 'accepted' and 'rejected', and the status it yields has that name |
| StatusEnum.ParseName | backend/src/models/ExchangeRequest.js:24-28 | every status's stored name parses back to that status |
| ExchangeRequestModel.NormaliseEmail | backend/src/models/ExchangeRequest.js:5-17 | the stored address is trimmed, has no upper-case letter and is no longer than the input |
| ExchangeRequestModel.NormaliseEmailValue | backend/src/models/ExchangeRequest.js:8-9 | the stored address is exactly the trimmed input with each A-Z letter replaced by its lower-case letter and every other character kept |
| ExchangeRequestModel.NormaliseEmailIdempotent | backend/src/models/ExchangeRequest.js:5-17 | normalising an already normal address changes nothing |
| ExchangeRequestModel.NewRequest | backend/src/models/ExchangeRequest.js:3-31 | a request is built exactly when both addresses are non-empty after the setters and any status is in the enum; it has the normalised addresses, message default '' and status default pending |
| ExchangeRequestModel.WhitespaceEmailRefused | backend/src/routes/exchangeRequests.js:12-23 | a whitespace-only address passes the handler's truthiness check but the schema refuses it |
| UserProfileModel.Inc | backend/src/routes/gigs.js:40 | one counter goes up by one and the other three are unchanged |
| UserProfileModel.IncCommutes | backend/src/routes/exchangeRequests.js:97-101 | two counter bumps give the same counters in either order |
| UserProfileModel.Blank | backend/src/models/UserProfile.js:3-20 | the upserted profile has the filter's e-mail, empty strings and skills, and all four counters at 0 |
| UserProfileModel.NewProfile | backend/src/models/UserProfile.js:3-20 | a profile is built exactly when e-mail and name are non-empty; the other fields take their given value or their default, counters 0 |
| GigModel.NewGig | backend/src/models/Gig.js:3-16 | a gig is built exactly when title, category, description, budget and duration are present; given fields are kept, missing ones get 'One-time Project', [], 'Remote', 'Anonymous' |
| SkillExchangeModel.NewEntry | backend/src/models/SkillExchange.js:3-13 | an entry is built exactly when name, skillOffered and skillWanted are present; the e-mail is optional and kept; location defaults to 'Remote', matchScore to 80 |
| GigApplicationModel.NewApplication | backend/src/models/GigApplication.js:4-20 | an application is built exactly when the gig id and a non-empty applicant are given; message defaults to '' and status is pending |
| Db.Where | backend/src/routes/gigApplications.js:37 | a document is in the result exactly when it is stored and matches, and stored order is kept |
| Db.NewestFirst | backend/src/routes/gigs.js:59 | the result is the stored documents reversed, a permutation of them, and sorted newest first when stored in insertion order |
| Db.IndexOf | backend/src/routes/gigs.js:70 | a found position holds a document with that id; not found means no stored document has it |
| Db.RemoveById | backend/src/routes/gigs.js:82 | with distinct ids, removing the found position removes exactly the document with that id and nothing else |
| Db.Increment | backend/src/routes/exchangeRequests.js:27-31 | the addressed profile exists afterwards, created with defaults if absent; its counter is one above its old value (0 if absent); other counters, other fields and other profiles are unchanged; keying by e-mail is kept |
| Db.StatOfIncrement | backend/src/routes/gigs.js:38-42 | after an upsert-increment, the addressed counter reads one more and every other address and counter reads as before, whether or not the profile existed |
| Db.IncrementCommutes | backend/src/routes/SkillExchange.js:33-37 | two upsert-increments give the same profiles in either order, for any addresses and counters |
| Db.Store.constructor | backend/index.js:47-50 | every collection starts empty and the invariant holds |
| Db.Store.InsertGig | backend/src/routes/gigs.js:23-33 | appends the gig under a fresh id and stamp and keeps the invariant |
| Db.Store.InsertEntry | backend/src/routes/SkillExchange.js:21-28 | appends the entry under a fresh id and stamp and keeps the invariant |
| Db.Store.InsertApplication | backend/src/routes/gigApplications.js:18-22 | appends the application under a fresh id and stamp and keeps the invariant |
| Db.Store.InsertRequest | backend/src/routes/exchangeRequests.js:18-23 | appends the request under a fresh id and stamp and keeps the invariant |
| Db.Store.IncrementStat | backend/src/routes/gigs.js:38-42 | the profiles become their `Increment`, keeping the invariant |
| Db.Store.SetRequestStatus | backend/src/routes/exchangeRequests.js:89-91 | only the status of the one request changes |
| Db.Store.SetApplicationStatus | backend/src/routes/gigApplications.js:67-71 | only the status of the one application changes |
| Db.Store.RemoveGig | backend/src/routes/gigs.js:82 | the gig at that position is removed, the rest keep their order, and the invariant holds |
| Db.Store.PutProfile | backend/src/routes/profile.js:38-54 | the profile is written under its own e-mail and the invariant holds |
| ExchangeRequestRoutes.Create | backend/src/routes/exchangeRequests.js:8-44 | 400 exactly when an address is falsy; 500 with nothing stored exactly when the schema refuses; otherwise one pending request with normalised addresses is appended, and the sender's raw address is counted once if the side write succeeds; the other collections are unchanged |
| ExchangeRequestRoutes.List | backend/src/routes/exchangeRequests.js:48-71 | without an e-mail: empty inbox and outbox, and `all` a permutation of the requests; with one, trimmed and lower-cased as the schema's setters cast it: the inbox is exactly the requests to that address from someone else, the outbox exactly those from it; the two are disjoint; all lists are newest first |
| ExchangeRequestRoutes.UpdateStatus | backend/src/routes/exchangeRequests.js:74-115 | 400 exactly for a status outside the enum, 404 exactly for an unknown id, with nothing changed in both; otherwise only that request's status is replaced, and the receiver's completed counter goes up by one exactly on a move from non-accepted to accepted |
| ExchangeRequestRoutes.AcceptTwice | backend/src/routes/exchangeRequests.js:95 | after a request and two acceptances, the sender's exchanges and the receiver's completed exchanges are both 1 |
| ExchangeRequestRoutes.SenderCountedUnderRawAddress | backend/src/routes/exchangeRequests.js:18-31 | an address typed with spaces or capitals is stored normalised, but the count lands under the typed address: 1 there, 0 under the stored one |
| ExchangeRequestRoutes.QueryFindsNormalisedAddress | backend/src/routes/exchangeRequests.js:58-63 | a query address that differs from the stored one only in capitals or surrounding spaces still lists the request in the inbox |
| ExchangeRequestRoutes.AcceptReopenAccept | backend/src/routes/exchangeRequests.js:89-101 | accepted, moved back to pending and accepted again, a request is counted twice for the receiver |
| GigApplicationRoutes.Create | backend/src/routes/gigApplications.js:8-29 | 400 with nothing changed exactly when the gig id or the applicant is missing; otherwise one pending application is appended and no profile changes |
| GigApplicationRoutes.List | backend/src/routes/gigApplications.js:32-56 | the gig id filter takes precedence over the e-mail filter; with neither, a permutation of all applications; always newest first |
| GigApplicationRoutes.UpdateStatus | backend/src/routes/gigApplications.js:59-84 | 400 exactly for a status outside the enum, 404 exactly for an unknown id, nothing changed in both; otherwise only that application's status changes; profiles, the other collections and the id counter are untouched |
| GigApplicationRoutes.ApplyTwice | backend/src/routes/gigApplications.js:18-22 | the same application posted twice is stored twice, with equal contents and different ids |
| GigRoutes.Create | backend/src/routes/gigs.js:9-54 | 500 with nothing stored exactly when the schema refuses; otherwise the gig with its defaults is appended, and the poster is counted once exactly when `postedBy` was given and the side write succeeded |
| GigRoutes.List | backend/src/routes/gigs.js:57-65 | a permutation of the stored gigs, newest first |
| GigRoutes.Get | backend/src/routes/gigs.js:68-77 | a stored gig with that id, or 404 exactly when none has it |
| GigRoutes.Delete | backend/src/routes/gigs.js:80-89 | 404 with nothing changed exactly when no gig has the id; otherwise exactly that gig is gone, one fewer remains, and profiles, the other collections and the id counter are untouched |
| GigRoutes.PostThenDelete | backend/src/routes/gigs.js:37-43 | the poster's counter is 1 after posting and still 1 after deleting |
| SkillExchangeRoutes.MatchScoreOrDefault | backend/src/routes/SkillExchange.js:27 | a supplied score, 0 included, is kept; only a missing one becomes 80 |
| SkillExchangeRoutes.Create | backend/src/routes/SkillExchange.js:8-53 | 500 with nothing stored exactly when the schema refuses; otherwise the entry is appended, and its owner is counted once exactly when the e-mail was given and the side write succeeded |
| SkillExchangeRoutes.List | backend/src/routes/SkillExchange.js:56-66 | a permutation of the stored entries, newest first |
| ProfileRoutes.Clean | backend/src/routes/profile.js:35 | no more pieces than the input, each non-empty and trimmed |
| ProfileRoutes.CleanOne | backend/src/routes/profile.js:35 | one piece cleans to its trim, or to nothing when the trim is empty |
| ProfileRoutes.CleanAppend | backend/src/routes/profile.js:35 | cleaning works piece by piece and keeps order: the cleaned pieces of a + b are those of a followed by those of b (with `CleanOne` this determines the result for every list) |
| ProfileRoutes.CleanCommaFree | backend/src/routes/profile.js:35 | comma-free pieces clean to skills that are non-empty, trimmed and comma-free |
| ProfileRoutes.NormaliseSkills | backend/src/routes/profile.js:32-36 | an array is kept as it is; a string becomes non-empty, trimmed, comma-free skills; anything else becomes [] |
| ProfileRoutes.SkillsRoundTrip | backend/src/routes/profile.js:35 | skills joined with ', ' normalise back to the same list |
| ProfileRoutes.NormaliseStable | backend/src/routes/profile.js:35 | normalising the ', '-joined result of a normalisation changes nothing |
| ProfileRoutes.ReactNode | backend/src/routes/profile.js:35 | the text "React, Node" normalises to ["React", "Node"] |
| ProfileRoutes.IrregularText | backend/src/routes/profile.js:35 | the text " React ,,Node," normalises to ["React", "Node"]: spaces, the empty piece and the trailing comma vanish |
| ProfileRoutes.Upsert | backend/src/routes/profile.js:38-54 | the profile under the body's e-mail exists afterwards with that e-mail and name, normalised skills and the supplied counters (missing ones 0); omitted role, location and bio keep their old value ('' if new); other profiles are unchanged |
| ProfileRoutes.UpsertIdempotent | backend/src/routes/profile.js:38-54 | saving the same body twice leaves the same profiles as saving it once |
| ProfileRoutes.UpsertOverwritesStats | backend/src/routes/profile.js:47-51 | the stored counters do not depend on what was stored before |
| ProfileRoutes.Save | backend/src/routes/profile.js:24-61 | 400 with nothing changed exactly when e-mail or name is falsy; otherwise the profiles become their `Upsert` and the saved profile is returned; no other collection changes |
| ProfileRoutes.Get | backend/src/routes/profile.js:7-21 | the profile stored under exactly that address, or 404 exactly when there is none |
| ProfileRoutes.SaveThenGet | backend/src/routes/profile.js:32-54 | saving "React, Node" as the skills text and fetching the profile gives ["React", "Node"] |
| DashboardRoutes.Get | backend/src/routes/dashboard.js:9-46 | the three totals are the collection sizes; no user exactly when the e-mail is falsy; otherwise that user's name and three counters, '' and 0 when there is no profile |
| DashboardRoutes.UnknownUserIsZero | backend/src/routes/dashboard.js:25-33 | an unknown address reads as an empty name and zero counters |

## Left out

- Database outages and network failures on the primary write (the 500 branches other than validation) are not modelled. Failed side writes are modelled by `statsWriteOk`.
- Ids are natural numbers, so an ill-formed ObjectId in a path or body, which Mongoose answers with a CastError (500), cannot be written.
- `updatedAt` timestamps, the `new: true` option and response status codes other than the outcomes in `Response` are not modelled.
- Concurrency is not modelled: `Promise.all` in the listing and dashboard routes, and interleavings of handlers. The model runs one handler at a time; `Db.IncrementCommutes` covers the order of side writes.
- Logging (`console.log`, `console.error`) is left out.
- Values of an unexpected JSON type (a number or an object where a string is expected, and so on) are not modelled. Each body field has one type: an optional string; an optional list of strings for a gig's `skills`; an optional natural-number id for an application's `gigId`; an optional integer for `budget`, `matchScore` and the three `stats` counters. A profile's `skills` is a list, a string or anything else (`SkillsInput`).
- GigModel.NewGig: `budget` is an integer; Mongoose's cast of numeric strings and floating-point budgets are not modelled.
- JsString.Lower: lower-cases ASCII letters only; Unicode case mapping is not modelled.
- UserProfileModel.Blank: a profile created by a counter upsert has no name in the database; the model stores '' for it, which is what the dashboard reads back.
- ProfileRoutes.Upsert: undefined role, location and bio are dropped from the update, as Mongoose 6 and later do, so they keep their stored value. Mongoose 5, which by default writes them as null, is not modelled. The `stats` object replaces the stored one, so `skillExchangesCompleted` is read back as its default 0.
- The Express server setup, the seed script and the frontend are not part of this model.
