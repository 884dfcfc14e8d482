# Notice board lifecycle

A model of the notice routes of a small notice-board backend. Clients create,
list, fetch, update and re-status notices. A notice may carry one attachment.
Its status moves between Draft, Unpublished and Published. Listing first runs
an auto-publish sweep: every Unpublished notice whose publish date has passed
becomes Published.

The document store is modelled as a class, `NoticeRoutes.NoticeBoard`. It
holds the records as a `seq<Notice>` in insertion order, with a counter that
hands out ids. Each route handler is a method of that class. What each handler
decides is a pure function in `NoticeRules`, and the lemmas there state its
properties. The methods' `ensures` clauses tie the new store to those
functions. The class invariant `StoreInvariant` says three things: ids are
unique, ids are below the counter, and the attachment fields are paired. Paired
means that either both are empty, or the path is a stored upload's public path
under `/uploads/`. An empty path thus always comes with an empty name. A file
whose original name is empty still gets a non-empty path, so an empty name does
not force an empty path.

Files:

- `notice_schema.dfy` (module `NoticeSchema`): the record shape from
  `models/Notice.js`. Text fields are optional strings, `publishDate` is an
  optional timestamp, and the status defaults to Unpublished. It also has
  `createdAt`/`updatedAt`.
- `uploads.dfy` (module `Uploads`): naming of an uploaded file. The sanitiser
  keeps `[A-Za-z0-9._-]` and replaces everything else with `_`. The stored name
  is `<ms>-<sanitised>` and the public path is `/uploads/<stored name>`.
- `notice_rules.dfy` (module `NoticeRules`): the pure logic of the routes.
- `notice_routes.dfy` (module `NoticeRoutes`): the store class and its five
  handlers.

Modelling decisions:

- A form field is `Option<string>`, where `None` means the client did not send
  it. "Missing" means JavaScript's `!value`: the field is undefined or `""`.
- The clock is a parameter `now`, in milliseconds. The upload's
  `Date.now()` travels inside `Upload.receivedAt`. The date that
  `new Date(publishDate)` yields is a parameter `parsedDate`. It is used only
  when the raw field is not blank.
- Every store update sets `updatedAt` to `now`: create, sweep, update and
  status patch. The store's timestamps option applies to bulk and by-id
  updates too.
- On update, a field whose value is `undefined` is dropped from the update
  document. Among the fields that pass validation, only `position` can be
  undefined. So an update without `position` keeps the old one. This assumes
  Mongoose 6 or later; the Mongoose version is not part of this model.
- Create and update validate differently. Create lets the hint `"Draft"`
  bypass validation; update never does. The model keeps this asymmetry as
  written.
- The status patch can publish a Draft whose required fields are empty. So
  "not Draft implies all required fields filled" holds only right after a
  create or an update. It is not a store invariant, and the model does not
  state it as one.

## Model

| member | source | states |
|---|---|---|
| NoticeSchema.Make | models/Notice.js:3-18 | a new record without an explicit status is Unpublished, otherwise has the given status; createdAt and updatedAt are both the insertion time; all given fields are stored as they are |
| NoticeSchema.StatusNameInjective | models/Notice.js:15 | distinct statuses are stored as distinct strings, so filtering by the stored string selects exactly one status |
| Uploads.Sanitize | routes/notices.js:13 | the sanitised name has the original's length, contains only `[A-Za-z0-9._-]`, keeps every allowed character in place and has `_` wherever the original had anything else |
| Uploads.SanitizeKeepsSafe | routes/notices.js:13 | a name made only of allowed characters is left unchanged |
| Uploads.SanitizeIdempotent | routes/notices.js:13 | sanitising twice gives the same name as sanitising once |
| Uploads.Decimal | routes/notices.js:14 | the rendered timestamp is a non-empty string of decimal digits |
| Uploads.DecimalRoundTrip | routes/notices.js:14 | reading the rendered timestamp back as a decimal number gives the timestamp |
| Uploads.StoredName | routes/notices.js:13-14 | the stored name consists only of allowed characters; it is the timestamp digits, a `-`, then the sanitised original name |
| Uploads.StoredNameCollision | routes/notices.js:13-14 | two uploads get the same stored name if and only if they share the millisecond and the sanitised name |
| Uploads.PublicPath | routes/notices.js:51 | the attachment path is `/uploads/` followed by the stored name |
| Uploads.PublicPathIsUploadPath | routes/notices.js:51 | every attachment path is a non-empty path under `/uploads/` made of allowed characters |
| NoticeRules.HttpStatus | routes/notices.js:46-98 | bad input is answered with 400 and only bad input is; an unknown id is answered with 404 and only an unknown id is |
| NoticeRules.ResolveStatus | routes/notices.js:34-54 | a new notice is Draft if and only if the hint is exactly `"Draft"`; any other hint, `"Published"` included, gives Unpublished |
| NoticeRules.ParseStatus | routes/notices.js:170-172 | the status patch accepts a value if and only if it is exactly `"Published"` or `"Unpublished"`; the accepted status is the one so named and is never Draft |
| NoticeRules.StoredDate | routes/notices.js:53-63 | the publish date is stored as absent if and only if the form field is blank, otherwise as the date the field denotes |
| NoticeRules.CreateOutcome | routes/notices.js:34-68 | create fails with 400 if and only if the hint is not `"Draft"` and some of the seven required fields is blank; on success the status is Draft iff the hint is `"Draft"` (never Published), the text fields are the form's, a blank publish date is stored as absent and any other as the date it denotes, and the attachment name and path are the upload's original name and public path, or both `""` without a file |
| NoticeRules.Revise | routes/notices.js:134-151 | an update keeps id and createdAt and sets updatedAt; it resets the status to Unpublished whatever it was; it replaces the required fields and the publish date; it replaces position only when sent, and the attachment pair only when a file is sent |
| NoticeRules.Sweep | routes/notices.js:78-84 | after the sweep every record that was Unpublished with a publish date at or before `now` is Published; every other record (Draft, later date, no date, already Published) is unchanged; no record changes in anything but status and updatedAt; none is left due |
| NoticeRules.SweepIdempotent | routes/notices.js:78-84 | a second sweep at the same time changes nothing |
| NoticeRules.SweepMonotone | routes/notices.js:78-84 | a record published by a sweep at one time is published by a sweep at any later time |
| NoticeRules.Matching | routes/notices.js:85-86 | the query selects exactly the records whose stored status string equals a non-blank filter, each as often as it is stored; a blank filter selects all records unchanged |
| NoticeRules.Insert | routes/notices.js:87 | inserting into a newest-first sequence keeps it newest-first and adds exactly that record |
| NoticeRules.SortNewestFirst | routes/notices.js:87 | the sorted result is a permutation of its input ordered by createdAt, newest first |
| NoticeRules.ListingExact | routes/notices.js:78-88 | the list response is newest first and holds exactly the swept records the filter selects |
| NoticeRules.ListingShowsDueAsPublished | routes/notices.js:78-88 | a record due at `now` appears in the list response as Published, for the filter `"Published"` and for no filter |
| NoticeRules.Find | routes/notices.js:96-98 | the lookup gives the first index whose record has the id, or reports that no record has it |
| NoticeRules.FindAppended | routes/notices.js:56-68 | a record inserted under a fresh id is the one found by that id |
| NoticeRules.CreateKeepsInvariant | routes/notices.js:50-68 | inserting a created record keeps ids unique and below the counter, and keeps attachment fields paired (both empty, or the path is an upload path) |
| NoticeRules.SweepKeepsInvariant | routes/notices.js:78-84 | the sweep keeps the store invariant |
| NoticeRules.ReviseKeepsInvariant | routes/notices.js:136-155 | an update keeps the store invariant |
| NoticeRoutes.NoticeBoard.Create | routes/notices.js:20-74 | a rejected create adds no record; a successful one appends exactly the record `CreateOutcome` describes under a fresh id |
| NoticeRoutes.NoticeBoard.List | routes/notices.js:76-92 | the store becomes its sweep; the response is newest first and holds exactly the swept records the filter selects |
| NoticeRoutes.NoticeBoard.Get | routes/notices.js:94-104 | a found notice is a stored record with that id; a 404 means no stored record has that id |
| NoticeRoutes.NoticeBoard.Update | routes/notices.js:106-165 | missing fields give 400 with the store unchanged, even for an unknown id; otherwise an unknown id gives 404 with the store unchanged; otherwise only that record changes, to its revision, and it is returned |
| NoticeRoutes.NoticeBoard.SetStatus | routes/notices.js:167-185 | a value other than `"Published"`/`"Unpublished"` gives 400 with the store unchanged; otherwise an unknown id gives 404 with the store unchanged; otherwise only that record's status (and updatedAt) change |
| NoticeRoutes.CreateThenGet | routes/notices.js:20-104 | a notice created with an attachment is fetched back by its id, with the original file name and the upload's public path |

## Left out

- The generic 500 branches are left out: any failure of the document store, the file store or the JSON serialiser. So is the cast error for a malformed id.
- `new Date(publishDate)` string parsing is left out, and so is an invalid date that the store would refuse. The parsed value is a parameter.
- The disk write of the upload and the static serving of `/uploads` are left out. Only the naming of the stored file is modelled.
- Uploads.Sanitize: works on Dafny characters. JavaScript's regular expression replaces each UTF-16 code unit, so a character outside the Basic Multilingual Plane becomes two `_` in the source and one here.
- Uploads.Decimal: models `Date.now()` as a non-negative integer. The number-to-string conversion is assumed to produce plain decimal digits, which holds for any realistic clock value.
- NoticeRules.SortNewestFirst: for records with equal createdAt the store does not fix an order. The model picks one and promises only the ordering and the permutation.
- Concurrency is left out, including the atomicity of the bulk sweep under concurrent lists. Each request is one sequential step.
- Ids are natural numbers from a counter, not ObjectIds.
- Non-string values in the JSON status body are left out, and so are repeated query or form keys, which arrive as arrays. A missing or non-string status is `None`.
- Non-string values in a JSON body sent to create or update are left out: the server also parses JSON bodies, where a field may be `0`, `false` or an object. `Blank` covers only undefined and `""`.
- Query operator objects in the list filter are left out (for example `?status[$ne]=Draft`, which the query parser turns into an object). `Matching` takes the filter as a plain string and compares it for equality.
- The health endpoint, process bootstrap, CORS and JSON middleware, and the connection setup in `server.js` are left out. None of it is part of this model.
