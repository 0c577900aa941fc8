# Complaint store and route handlers

A model of the complaint back end of a citizen-grievance service: the
complaint collection, the Mongoose schema that guards it, the four complaint
routes (create, paginated list, the requester's own complaints, delete) and
the user-stats route that counts a user's complaints.

- `common.dfy` — `Option` (JavaScript's missing value) and `Result` (a call
  that returns or throws).
- `js_strings.dfy` — the JavaScript string operations the handlers use:
  truthiness of an optional string, `includes`, `split` on one character
  (with its inverse `Join`) and `pop`.
- `complaint_model.dfy` — the schema: `ComplaintInput` is the object given to
  `new Complaint({...})`, `Complaint` the stored document; `WithDefaults`
  applies the `"Pending"` default of `status`; `SchemaValid` is the save-time
  validation (`required` strings present and non-empty, `user` present,
  `status` in its enumeration); `InvalidPaths` is the list the validation
  error reports; `Stamp` is the document the store writes, with `_id`,
  `createdAt` and `updatedAt` set by the store.
- `complaint_store.dfy` — the collection as a class `ComplaintCollection`
  holding its documents in natural (insertion) order, with the invariant that
  `_id`s are unique and every document passed validation. `Save` inserts
  exactly when the document is valid and its `_id` is free; `DeleteOne`
  removes by `_id`. The reads (`Find`, `FilterByUser`, `CountByUser`,
  `SortNewestFirst`) are functions over the documents.
- `http.dfy` — a handler's answer: a status code and a payload.
- `complaint_routes.dfy` — the handlers. `CreateComplaint` and
  `DeleteComplaint` are methods that change the collection; `ListComplaints`
  and `UserComplaints` are functions of the documents (they only read).
  `PublicId` extracts the Cloudinary public id of an image URL.
- `user_routes.dfy` — `UserStats` over the user table and the documents.

The requester's id is an input (authentication is outside the model). The
calls to the image host are outcomes handed to the handler: `UploadResult` is
a `secure_url` or a thrown error, `DestroyResult` is success or a thrown
error. The `_id` Mongoose generates and the store's clock are parameters of
create.

The central consequence of the code as written: create builds its document
without `emailBody`, and with `proofImage` null when no image is sent, but the
schema requires both. So every create that passes the field check and the
upload reaches `save()`, fails validation and answers 500; no create ever adds
a complaint. `CreateInputNeverValid` proves this of the constructed document
and `CreateComplaint` states it (`store.docs == old(store.docs)`, status 400
or 500), next to the clauses describing what a successful save would do.

What the handlers do and do not do:
- The handler checks only `description`, `cause` and `impact`; a missing
  image is not a field-check error (it fails later, in validation).
- No department classification, fallback routing, notification composition
  or email dispatch happens in create; the classification fields and
  `emailBody` exist only in the schema.
- `page` and `limit` default only when absent (or empty); zero and negative
  values are used as given.

## Model

| member | source | states |
|---|---|---|
| `JsStrings.Truthy` | src/routes/complaintRoutes.js:17 | an optional string is truthy exactly when it is present and not `""` |
| `JsStrings.Includes` | src/routes/complaintRoutes.js:112 | `s.includes(sub)` holds exactly when `sub` occurs in `s` at some position |
| `JsStrings.Last` | src/routes/complaintRoutes.js:114 | `pop()` returns the final part: the parts are the others followed by it |
| `JsStrings.Split` | src/routes/complaintRoutes.js:114 | `split` on one character gives at least one part, no part holds the separator, and joining the parts with it gives the string back |
| `JsStrings.JoinStartsWithFirst` | src/routes/complaintRoutes.js:114 | the first part of a split (`split(".")[0]`) is a prefix of the split string |
| `JsStrings.JoinEndsWithLast` | src/routes/complaintRoutes.js:114 | the last part of a split (`pop()`) is a suffix of the split string |
| `JsStrings.SplitFirstStopsAtSep` | src/routes/complaintRoutes.js:114 | when the separator occurs, the first part of a split ends right before its first occurrence |
| `JsStrings.JoinLastAfterSep` | src/routes/complaintRoutes.js:114 | when there are several parts, the last one follows a separator in the joined string |
| `JsStrings.SplitLastAfterSep` | src/routes/complaintRoutes.js:114 | the part `pop()` returns is the whole string or starts right after a separator |
| `ComplaintModel.SchemaValid` | src/models/complaintModel.js:9-45 | a constructed document validates exactly when `user` is set, `description`, `cause`, `impact`, `proofImage` and `emailBody` are set and non-empty, and a given `status` is in the enumeration (the `"Pending"` default always passes) |
| `ComplaintModel.WithDefaults` | src/models/complaintModel.js:37-40 | construction sets `status` to the given value, or `"Pending"` when none is given, and changes no other path |
| `ComplaintModel.DefaultStatusIsPending` | src/models/complaintModel.js:40 | a document built without `status` has `"Pending"`, which the enumeration accepts |
| `ComplaintModel.DefaultsIdempotent` | src/models/complaintModel.js:40 | applying the default twice is the same as once |
| `ComplaintModel.InvalidPaths` | src/models/complaintModel.js:9-45 | the reported paths are exactly the failing ones (`user` unset; `description`, `cause`, `impact`, `proofImage`, `emailBody` unset or empty; `status` outside the enumeration), so the list is empty exactly when the document is valid |
| `ComplaintModel.SchemaOrderComplete` | src/models/complaintModel.js:9-45 | every validated path is in the schema-order list, and a document is valid exactly when every path passes its validator |
| `ComplaintModel.FailingAmong` | src/models/complaintModel.js:9-45 | the failing paths among a list are exactly the listed paths whose validator fails |
| `ComplaintModel.Stamp` | src/models/complaintModel.js:58-61 | the stored document carries the caller's paths with defaults applied, the assigned `_id`, and `createdAt == updatedAt ==` the store's clock |
| `ComplaintModel.StampIsStored` | src/models/complaintModel.js:9-45 | a valid input becomes a document that satisfies the schema as stored |
| `ComplaintModel.StoredStatusEnumerated` | src/models/complaintModel.js:37-39 | every stored document's status is `"Pending"`, `"In Progress"` or `"Resolved"` |
| `ComplaintModel.StoredRequiredPresent` | src/models/complaintModel.js:9-45 | every stored document has non-empty `description`, `cause`, `impact`, `proofImage` and `emailBody` |
| `ComplaintModel.OptionalPathsIrrelevant` | src/models/complaintModel.js:28-30 | changing `location`, `classified_intent`, `department_email` or `department_name` never changes validity |
| `ComplaintStore.Find` | src/routes/complaintRoutes.js:103 | `findById` returns a document of the collection with that `_id`, and nothing exactly when no document has it |
| `ComplaintStore.WithoutId` | src/routes/complaintRoutes.js:122 | after deleting by `_id` the collection holds exactly the documents with another `_id`, and is unchanged when none had it |
| `ComplaintStore.FilterByUser` | src/routes/complaintRoutes.js:86 | `find({ user })` holds exactly the documents owned by that user, each as many times as in the collection |
| `ComplaintStore.CountByUser` | src/routes/userRoutes.js:22 | `countDocuments({ user })` is the number of documents `find({ user })` returns: zero exactly when the user owns no document, and never more than the collection's size |
| `ComplaintStore.InsertNewestFirst` | src/routes/complaintRoutes.js:58 | inserting into a newest-first sequence keeps it newest-first, adds one element, and puts either the new document or the old first one at the front |
| `ComplaintStore.InsertPermutes` | src/routes/complaintRoutes.js:58 | insertion adds exactly the inserted document to the multiset of documents |
| `ComplaintStore.SortNewestFirst` | src/routes/complaintRoutes.js:57-58 | `sort({ createdAt: -1 })` yields a permutation of the documents in which no document precedes a newer one |
| `ComplaintStore.ComplaintCollection.Save` | src/models/complaintModel.js:9-45 | `save()` validates first: an invalid document throws a validation error listing its failing paths, a taken `_id` throws a duplicate-key error, and in both cases nothing changes; otherwise exactly the stamped document is appended |
| `ComplaintStore.ComplaintCollection.DeleteOne` | src/routes/complaintRoutes.js:122 | `deleteOne()` leaves exactly the other documents, in order, and keeps the collection's invariant |
| `ComplaintStore.WithoutIdKeepsOthers` | src/routes/complaintRoutes.js:122 | deleting by `_id` keeps every document with another `_id` exactly as often as it was stored, and in its original order |
| `ComplaintStore.WithoutIdKeepsUniqueIds` | src/routes/complaintRoutes.js:122 | deleting keeps `_id`s unique |
| `ComplaintRoutes.HasRequiredText` | src/routes/complaintRoutes.js:17 | the field check passes exactly when `description`, `cause` and `impact` are each present and not `""` |
| `ComplaintRoutes.CreateInput` | src/routes/complaintRoutes.js:29-36 | the constructed document has the requester as `user`, the submitted `description`, `cause`, `impact`, `location`, and the uploaded URL (or null) as `proofImage` |
| `ComplaintRoutes.CreateInputNeverValid` | src/routes/complaintRoutes.js:29-36 | the document create builds never validates: `emailBody` is always reported, and `proofImage` too when no image was uploaded; `status` and `user` are never reported |
| `ComplaintRoutes.CreateComplaint` | src/routes/complaintRoutes.js:13-44 | 400 with the fixed message exactly when `description`, `cause` or `impact` is missing or empty, with no upload and no change; the upload is called exactly when the fields pass and an image is sent; an upload error gives 500 with its message; a 201 would append exactly the new document (the requester's, with the submitted text, status `"Pending"` and `createdAt` now); as written every request that reaches save gets 500 with a validation error naming `emailBody`, and the collection never changes |
| `ComplaintRoutes.QueryOr` | src/routes/complaintRoutes.js:52-53 | `req.query.x || d` is the parameter's value when present and non-empty, otherwise the default |
| `ComplaintRoutes.Skip` | src/routes/complaintRoutes.js:54 | `(page - 1) * limit` is 0 on page 1 or for limit 0; for a positive limit it is negative exactly when `page < 1`, and for a negative limit exactly when `page > 1` |
| `ComplaintRoutes.CeilDiv` | src/routes/complaintRoutes.js:71 | `Math.ceil(total / limit)` is the least integer not below the quotient, for positive and for negative limits |
| `ComplaintRoutes.TotalPages` | src/routes/complaintRoutes.js:71 | `totalPages` is null when the limit is 0 (Infinity or NaN in JSON), for a positive limit the least page count whose pages cover all complaints, and for a negative limit `Math.ceil` of the (non-positive) quotient |
| `ComplaintRoutes.Window` | src/routes/complaintRoutes.js:59-60 | `skip(skip).limit(limit)` returns the documents at positions `skip`, `skip+1`, … of its input: none past the end, all remaining for limit 0, at most the limit's magnitude otherwise |
| `ComplaintRoutes.ListComplaints` | src/routes/complaintRoutes.js:50-77 | `page` defaults to 1 and `limit` to 2 when absent; a negative skip `(page-1)*limit` gives 500; otherwise 200 with the complaints at positions `skip`, `skip+1`, … of the collection sorted newest first (at most `limit` of them for a positive limit, all remaining for 0, at most `|limit|` for a negative one), `currentPage`, `totalComplaints` equal to the collection's size and `totalPages` |
| `ComplaintRoutes.WindowOfSorted` | src/routes/complaintRoutes.js:57-60 | a page of the sorted collection is itself newest-first and holds only complaints of the collection |
| `ComplaintRoutes.PageNonEmptyIffWithinTotal` | src/routes/complaintRoutes.js:52-71 | with a positive limit, page `p >= 1` holds complaints exactly when `p <= totalPages` |
| `ComplaintRoutes.FiveComplaintsDefaultPaging` | src/routes/complaintRoutes.js:52-71 | with five complaints and no parameters, the first page holds two complaints and `totalPages` is 3 |
| `ComplaintRoutes.UserComplaints` | src/routes/complaintRoutes.js:83-94 | 200 with exactly the requester's complaints (as a multiset, the owner filter), newest first, as many as the owner count |
| `ComplaintRoutes.LastSegment` | src/routes/complaintRoutes.js:114 | `split("/").pop()` is the longest suffix of the URL with no `/`: it is the whole URL or is preceded by a `/` |
| `ComplaintRoutes.PublicId` | src/routes/complaintRoutes.js:114 | the public id has no `/` and no `.`, and is the longest such prefix of the URL's last segment: the whole segment when it has no `.`, otherwise the part before its first `.` |
| `ComplaintRoutes.DestroyAttempted` | src/routes/complaintRoutes.js:112 | destroy is attempted exactly when `"cloudinary"` occurs in the image URL (such a URL is never empty, so the truthiness test adds nothing) |
| `ComplaintRoutes.DeleteComplaint` | src/routes/complaintRoutes.js:100-129 | a malformed id gives 500, an unknown id 404, another user's complaint 401, all with no change and no destroy call; the owner's delete answers 200, leaves exactly the other complaints (one fewer), and calls destroy with the image's public id exactly when the image URL contains `"cloudinary"`, whatever destroy answers |
| `ComplaintRoutes.DeleteRemovesExactlyOne` | src/routes/complaintRoutes.js:122 | with unique ids, deleting a present id removes exactly one complaint, no complaint with that id remains, and every other complaint is kept |
| `UserRoutes.UserStats` | src/routes/userRoutes.js:11-33 | 404 exactly when no user has the requester's id; otherwise 200 with `memberSince` the user's `createdAt` and `totalIssues` the number of complaints the requester owns |
| `UserRoutes.StatsAgreesWithUserList` | src/routes/userRoutes.js:22 | `totalIssues` equals the length of the list GET /user returns to the same requester |

## Left out

- Authentication (`protectRoute`): the requester's id is an input; a request without a user never reaches the handlers.
- Express wiring, the server start, database connection, the keep-alive cron job and the e-mail helper (never called by these handlers): transport, scheduling and I/O.
- The image host's internals: an upload is a `secure_url` or an error, a destroy is success or an error; the destroy outcome is only logged.
- Database failures other than those the data decide (validation, duplicate `_id`, a malformed `:id`, a negative skip): a lost connection or timeout in any query is not modelled.
- Request bodies whose fields are not strings, and query parameters that are not integers (JavaScript's number coercion to NaN): a field is absent or a string, a query parameter absent (or empty) or an integer. `currentPage` is echoed as the query string itself (`"2"`) when `page` is sent and as the number 1 otherwise; the model carries its integer value in both cases.
- `page`, `limit` and `skip` are unbounded integers: JavaScript's double precision above 2^53 and MongoDB's 64-bit range for `skip` and `limit` (a larger value is rejected and answers 500) are not modelled.
- The text of the validation error message: the payload carries the list of failing paths instead of Mongoose's formatted string.
- `populate("user", ...)`, JSON serialisation and console logging.
- SortNewestFirst: complaints with equal `createdAt` keep natural (insertion) order; MongoDB does not promise any order for ties.
- ComplaintRoutes.Window: a negative `limit` is modelled as MongoDB's single-batch request for `|limit|` documents, ignoring the batch-size cap.
- The user table and its model file (src/models/userModel.js is not part of this model): a user is only its `createdAt`.
- Concurrency between requests: each handler runs as one sequential step over the collection.
