# BitDrop server core, modelled in Dafny

BitDrop is a short-video sharing back end. Its core is a handful of HTTP handlers:
- a drop upload pipeline;
- a drop delete handler;
- the object-store client the two drop handlers share;
- a bearer-token middleware;
- sign-up, login, logout, an availability check and a get-or-create user service.

This project models those handlers as pure step functions over an abstract world:
- the temporary files;
- the objects in the store;
- the `drops` table, as a map from id to row;
- the `users` table, as a sequence, so that "the row a query returns" is the first matching row.

Every call into the outside becomes a parameter whose value is given: the operating system, the HTTP transport, ffmpeg, the database's failures, bcrypt, the JWT library, UUID generation and the clocks. A handler returns its response, the world it leaves, and the ordered trace of effects it performed.

Modules, one per file:
- `Common`: `Option`, `Result`, `Step` and `FirstMatch`.
- `Text`: the `strings` functions the handlers use.
- `Records`: the rows and the responses.
- `Storage`: the object-store client.
- `Auth`: the middleware.
- `Store`: the world and the effects.
- `Ingest`: the upload handler.
- `Retract`: the delete handler.
- `Routes`: the handlers behind the middleware.
- `Accounts`: sign-up, login and logout.
- `Availability`: the availability check.
- `Users`: get-or-create.

The model follows the code in these respects:
- the middleware checks a single secret and reads only the `sub` claim;
- the video is uploaded before ffmpeg runs, so a later failure leaves it orphaned in the store;
- uploads use POST.

## Model

| member | source | states |
|---|---|---|
| Common.FirstMatch | internal/handlers/auth_handlers.go:85-101 | the row a single-row query returns is the first matching row; there is none exactly when no row matches |
| Text.IndexOf | internal/handlers/drop_handlers.go:283 | `strings.Index` finds the first occurrence of the pattern, and answers "absent" exactly when it occurs nowhere |
| Text.LastIndexOfChar | internal/handlers/drop_handlers.go:70-75 | the position of the last occurrence of a character; absent exactly when the character does not occur |
| Text.TrimPrefix | internal/middleware/auth.go:23 | removes the prefix when the text starts with it, and otherwise leaves the text unchanged |
| Text.Lower | internal/handlers/auth_handlers.go:63 | folds each ASCII capital to lower case, keeps every other character, and keeps the length |
| Text.LowerIdempotent | internal/handlers/auth_handlers.go:89 | folding an already folded email changes nothing |
| Storage.Upload | internal/utils/supabase.go:13-51 | an unset URL or key fails with no request sent; the request is a POST of octet-stream to base/storage/v1/object/bucket/name with the service key as bearer; success iff 200 or 201, and then the public URL; any other status fails with the body |
| Storage.Remove | internal/utils/supabase.go:54-79 | an unset URL or key fails with no request sent; the request is a DELETE of the same object URL with the bearer key; success iff 200 or 204, otherwise the body in the error |
| Storage.RequestsShareUrlAndCredential | internal/utils/supabase.go:27-66 | upload and delete address the identical object URL, and both carry `Bearer <service key>`; the upload is a POST |
| Storage.PublicUrlIgnoresReply | internal/utils/supabase.go:48-50 | the locator a successful upload returns depends on the base, bucket and name only, never on the server's answer |
| Auth.CheckClaims | internal/middleware/auth.go:43-53 | a missing or null `sub` gives "Invalid claims"; otherwise a numeric `exp` strictly before now gives "Token expired"; otherwise the caller is `sub` |
| Auth.Authorize | internal/middleware/auth.go:15-57 | the checks run in the order header, prefix, signature, claims: an empty header gives "Missing Authorization header", a missing prefix "Malformed token", a failed or non-HMAC verification "Invalid token", and past the signature the claim checks alone decide; acceptance binds the caller to the non-null `sub` |
| Auth.ExpiryBoundary | internal/middleware/auth.go:50-53 | a token expiring exactly now passes; one second later it is rejected as expired |
| Auth.UserIdClaimIgnored | internal/middleware/auth.go:43-47 | a `user_id` claim never changes the decision |
| Auth.MintedTokensRejected | internal/utils/jwt.go:10-19 | tokens minted by the server's own signer carry `user_id` but no `sub`, so the gate always rejects them with "Invalid claims" |
| Ingest.Ext | internal/handlers/drop_handlers.go:67-77 | the extension is "" exactly when the name has no '.', and is otherwise a suffix of the name that starts at a '.' and contains no further '.' |
| Ingest.ScanExt | internal/handlers/drop_handlers.go:67-76 | the handler's backward scan for the last '.' computes `Ext` |
| Ingest.GroupOf | internal/handlers/drop_handlers.go:39-47 | a group id is recorded exactly when the field is non-empty and parses as a UUID |
| Ingest.UploadDrop | internal/handlers/drop_handlers.go:23-197 | a form or part failure gives 400, a missing caller 401, a bad caller 500, all with nothing touched; no temporary file survives and only a stale thumbnail file may go; 201 iff every stage succeeds, both uploads accepted and the insert done; the insert is attempted iff every stage before it succeeded, both uploads included; afterwards the store holds exactly what it held before, plus the video object if its upload was accepted and the thumbnail object if the insert was reached; the row holds caller, group, both locators, caption and zero votes, and it is echoed |
| Ingest.StopSettles | internal/handlers/drop_handlers.go:85-136 | returning from any stage runs the deferred removals, after which every created file is gone and nothing else has changed |
| Ingest.SaveVideo | internal/handlers/drop_handlers.go:79-108 | a temp-file creation, copy or reopen failure ends in 500 with the world as it was; from there, 201 iff both uploads are accepted, the thumbnail steps succeed and the insert is done, and the insert is attempted iff both uploads were accepted; the objects added are exactly those whose uploads were accepted |
| Ingest.UploadVideo | internal/handlers/drop_handlers.go:110-115 | a rejected video upload ends in 500 with no row, no insert attempted and no object added; an accepted one adds the video object, which stays whatever follows |
| Ingest.Thumbnail | internal/handlers/drop_handlers.go:117-164 | a directory, stale-file, ffmpeg or reopen failure ends in 500 with no row and no insert attempted; objects already stored are kept, and the thumbnail object is added iff every thumbnail step and its upload succeed |
| Ingest.UploadThumbnail | internal/handlers/drop_handlers.go:166-196 | the insert is attempted iff the thumbnail upload was accepted; 201 iff it was and the insert is done; the thumbnail object is added iff its upload was accepted, and nothing is removed |
| Ingest.InsertTrace | internal/handlers/drop_handlers.go:166-194 | proof step towards Ingest.PipelineOrder: the last stages' effects are a prefix of "thumbnail upload, insert", followed by the deferred removals |
| Ingest.ThumbnailStopsEarly | internal/handlers/drop_handlers.go:119-135 | proof step towards Ingest.PipelineOrder: a directory or stale-removal failure stops before ffmpeg |
| Ingest.FfmpegStops | internal/handlers/drop_handlers.go:136-163 | proof step towards Ingest.PipelineOrder: an ffmpeg or reopen failure happens after the thumbnail path is registered for removal, so both temp files go |
| Ingest.FfmpegSucceeds | internal/handlers/drop_handlers.go:117-164 | proof step towards Ingest.PipelineOrder: after ffmpeg the run keeps its invariant and continues with the thumbnail upload |
| Ingest.EarlyStopPrefix | internal/handlers/drop_handlers.go:117-135 | proof step towards Ingest.PipelineOrder: an early thumbnail failure has performed only the directory creation |
| Ingest.FfmpegStopPrefix | internal/handlers/drop_handlers.go:136-163 | proof step towards Ingest.PipelineOrder: an ffmpeg-stage failure has performed a prefix of the thumbnail stages, and both temp files are removed |
| Ingest.AfterFfmpegTrace | internal/handlers/drop_handlers.go:117-196 | proof step towards Ingest.PipelineOrder: once ffmpeg produced a frame, the effects are those up to ffmpeg, then the thumbnail upload and insert up to the failing one, then the removal of the thumbnail and the video file |
| Ingest.UploadStagePrefix | internal/handlers/drop_handlers.go:136-196 | proof step towards Ingest.PipelineOrder: once ffmpeg succeeds, the effects are the thumbnail stages up to the failing one |
| Ingest.ThumbnailTrace | internal/handlers/drop_handlers.go:117-196 | proof step towards Ingest.PipelineOrder: from the thumbnail directory on, the effects are a prefix of the fixed stage order, then the removal of the thumbnail and the video file |
| Ingest.SaveVideoStops | internal/handlers/drop_handlers.go:87-107 | proof step towards Ingest.PipelineOrder: a copy or reopen failure creates and removes the temp video and does nothing else |
| Ingest.VideoUploadTrace | internal/handlers/drop_handlers.go:79-115 | proof step towards Ingest.PipelineOrder: after staging, the video upload is the only effect before the thumbnail stages, and the handler continues exactly when it succeeded |
| Ingest.LaterFailureOrphansVideo | internal/handlers/drop_handlers.go:111-164 | once the video is stored, every later failure answers 500, inserts no row and leaves the video object in the store |
| Ingest.FailedInsertOrphansBoth | internal/handlers/drop_handlers.go:186-194 | a failing insert answers 500 with the insert error and leaves both the video and the thumbnail object behind |
| Ingest.VideoFailPrefix | internal/handlers/drop_handlers.go:79-115 | proof step towards Ingest.PipelineOrder: a failed video upload has performed the first stages of the fixed order and then removes only the temp video |
| Ingest.VideoOkPrefix | internal/handlers/drop_handlers.go:79-196 | proof step towards Ingest.PipelineOrder: once the video upload succeeds, the effects are a prefix of the fixed order, then the removal of the thumbnail (when created) and the temp video |
| Ingest.PipelineOrder | internal/handlers/drop_handlers.go:79-196 | whatever fails, the effects are a prefix of: temp video, video upload, thumbnail directory, stale removal, ffmpeg, thumbnail upload, insert; then the deferred removals, thumbnail first |
| Retract.GetPath | internal/handlers/drop_handlers.go:282-288 | the text after the first "/drops/", or "" when the URL has none |
| Retract.NoSegmentInBase | internal/handlers/drop_handlers.go:283 | a "/drops/" that lies wholly inside the base URL would be an occurrence in the base |
| Retract.StraddlingNeedsSuffix | internal/handlers/drop_handlers.go:283 | a "/drops/" that straddles the end of the base forces the base to end in "/drops" |
| Retract.NoSegmentInPrefix | internal/utils/supabase.go:49 | within the fixed public path, the only "/drops/" is the one that precedes the key |
| Retract.GetPathInvertsPublicUrl | internal/handlers/drop_handlers.go:282-288 | `getPath` recovers the key from the public URL of the drops bucket whenever the base contains no "/drops/" and does not end in "/drops" |
| Retract.DeleteBestEffort | internal/handlers/drop_handlers.go:289-297 | an empty key sends nothing; otherwise one delete goes out, its error is discarded, and at most that object disappears |
| Retract.DeleteDrop | internal/handlers/drop_handlers.go:256-303 | a missing caller gives 401 and a non-string caller 500, both untouched; a lookup failure gives 404 and a foreign owner 403, both after one lookup with nothing changed; the row delete is issued iff the caller owns the drop, and then only the drop's two objects can disappear; 204 iff the row delete succeeds, and then the row is gone; its failure answers 500 "Failed to delete drop: " and the error |
| Retract.StorageFaultsIgnored | internal/handlers/drop_handlers.go:289-303 | the storage replies change neither the response nor the table |
| Retract.RetractionRequests | internal/handlers/drop_handlers.go:289-299 | the owner's delete sends exactly the lookup, a delete for each non-empty key (video first), and the row delete |
| Routes.Gate | internal/routes/routes.go:19-20 | a rejected token answers 401 with the middleware's message, and the handler never runs; an accepted one runs the handler with the caller bound to `sub` |
| Routes.ProtectedUpload | internal/routes/routes.go:23 | behind the middleware, a row appears only for a verified caller and names the canonical form of its `sub` |
| Routes.ProtectedDelete | internal/routes/routes.go:26 | behind the middleware, only the owner named by `sub` changes anything, and the only table change is the removal of that row with 204 |
| Routes.NonCanonicalOwnerLockedOut | internal/handlers/drop_handlers.go:276-279 | a caller whose `sub` is not in canonical UUID spelling gets 403 on its own drop, because the row stores the parsed id while the delete compares the raw claim |
| Routes.ProtectedDeleteCanonical | internal/handlers/drop_handlers.go:60-279 | corrected: the delete behind the middleware with the ownership check made on the caller in the form the upload stores; a rejected token still answers 401 and runs nothing |
| Routes.CanonicalOwnerRetracts | internal/handlers/drop_handlers.go:60-279 | corrected: whatever the spelling of `sub`, the uploader's delete of its own drop answers 204 and removes that row |
| Routes.LocatorsLeadBack | internal/handlers/drop_handlers.go:166-189 | the two locators an upload stores lead back, through `getPath`, to the two keys it uploaded |
| Routes.UploadLeavesOwnedRow | internal/handlers/drop_handlers.go:166-196 | a successful upload adds exactly one row, owned by the caller and holding the locators of the two uploaded objects |
| Routes.OwnerRetractsUpload | internal/handlers/drop_handlers.go:256-303 | the owner's delete of a drop an upload described answers 204, removes that row and exactly the two uploaded objects, and touches no file |
| Routes.UploadThenRetract | internal/handlers/drop_handlers.go:24-303 | a successful upload followed by the same caller's delete of the new drop restores the table, removes both uploaded objects, and changes no file |
| Accounts.NewAccount | internal/handlers/auth_handlers.go:60-63 | a new account stores the folded email, the given username, the hash (never the password), an empty avatar and bio, the free tier, zero boosts, no admin flag, and the same database instant as creation and last activity |
| Accounts.Enroll | internal/handlers/auth_handlers.go:30-72 | the database, duplicate, hash and insert steps in order: 409 iff a row clashes with the probed email or the username; 201 iff nothing fails, and then exactly one row is appended; otherwise the table is unchanged |
| Accounts.SignUp | internal/handlers/auth_handlers.go:18-73 | as written: a body that does not bind gives 400; 409 iff some row has the raw email or the username; 201 iff no clash, the hash and the insert succeed, and then the new account is appended; any other answer is an error and leaves the table unchanged |
| Accounts.SignUpFolded | internal/handlers/auth_handlers.go:36-63 | corrected: the same as SignUp, except that the duplicate check compares the folded email, which is the form stored |
| Accounts.Login | internal/handlers/auth_handlers.go:75-119 | 400 for a body that does not bind; 200 iff the first row with the folded email has a hash that accepts the password, and then that row's user is returned; every other failure is the same 401; the table is never changed |
| Accounts.Logout | internal/handlers/auth_handlers.go:121-124 | always 200 with a message, and no row changes |
| Accounts.LogoutKeepsLogin | internal/handlers/auth_handlers.go:121-124 | the server keeps no session: any login after a logout answers exactly as it would have before |
| Accounts.SignUpFoldedKeepsUnique | internal/handlers/auth_handlers.go:36-63 | the corrected sign-up preserves the table's uniqueness of ids, emails and usernames |
| Accounts.SignUpFoldedThenLogin | internal/handlers/auth_handlers.go:85-112 | after a corrected sign-up, logging in with any casing of the email and the same password returns the new account |
| Accounts.SignUpFoldedThenLoginStored | internal/handlers/auth_handlers.go:63-89 | logging in with the email exactly as stored also returns the new account, because the stored form is already folded |
| Accounts.SignUpAdmitsCaseVariant | internal/handlers/auth_handlers.go:36-63 | as written, signing up "Ann@x.io" beside an existing "ann@x.io" succeeds and leaves two rows with the same stored email; the corrected check answers 409 |
| Accounts.CaseVariantLockedOut | internal/handlers/auth_handlers.go:85-112 | the account created that way cannot log in when the database returns matching rows in insertion order: the lookup then finds the older row, whose hash does not open with the new password |
| Availability.CheckAvailability | internal/handlers/availability.go:11-47 | the username is checked first; a taken username gives 409 and the email is never queried; then the email; a query error gives 500 with a message naming the field; 200 "Available" iff neither exists |
| Availability.ClashIffTakenOrInUse | internal/handlers/availability.go:18-44 | a sign-up clash is exactly a taken username or an email in use |
| Availability.AvailableIffNoConflict | internal/handlers/auth_handlers.go:36-49 | with no query failing, the availability check says "Available" exactly when sign-up would not answer 409 |
| Users.GetOrCreateUser | internal/services/user.go:13-69 | a successful fetch returns the first row with the id and inserts nothing; any failed fetch leads to an insert; a failed insert returns its error with the table unchanged; a created user has the given id and email, "newuser", the free tier, and equal creation and activity times |
| Users.SecondCallFinds | internal/services/user.go:16-36 | after a create, a second call for the same id fetches the row and inserts nothing; it returns the same record with the database's timestamps |
| Users.GetOrCreateKeepsIdsUnique | internal/services/user.go:39-51 | get-or-create never duplicates an id |
| Users.TransientFetchFailureIsError | internal/services/user.go:34-51 | a known user whose fetch fails for another reason is not recreated; the insert fails on the key and the caller gets the error |

## Left out

- HTTP transport, multipart parsing and JSON binding: each is given as its outcome (a parsed form or a parse error, a bound request or none).
- `http.NewRequest` failing is an `Unbuildable` reply; its error text is given, not derived.
- UUID generation and `uuid.Parse`: given ids, and a given parse function that yields the canonical text. The UUID grammar is not modelled.
- `strings.ToLower` is ASCII-only: non-ASCII letters are left unchanged.
- Ingest.UploadDrop: models the deferred removals of temporary files as always succeeding, because their errors are discarded and there is nothing to report.
- Ingest.UploadDrop: the `visibility` column is left to the schema default, which is not part of this model; the echoed drop carries "".
- Ingest.UploadDrop: a request that went out but was not acknowledged (an `Unreachable` reply, or an answer other than 200 or 201) is taken to store nothing. The exact object equations of Ingest.UploadDrop, Ingest.SaveVideo, Ingest.UploadVideo, Ingest.Thumbnail and Ingest.UploadThumbnail depend on that; a store that kept such an object would leave one more orphan than they state.
- Ingest.UploadDrop: closing of readers and logging (including the stat calls that only log) are not modelled.
- The ffmpeg subprocess is a given outcome. A failing run may or may not leave a partial thumbnail file, and both cases are modelled.
- Auth.Authorize: the JWT library's own parsing and claim validation, including its `exp` check, are folded into the verifier answer. `exp` is an integer rather than a float64 truncated to int64. Read from the library rather than verified here: golang-jwt v5 rejects a token whose `exp` is not after the current time during parsing, so such a token is answered "Invalid token", and the "Token expired" branch is reached only when the verifier passes an expired token through.
- Clocks (`time.Now`, `NOW()`) are given integers.
- Database errors are flags. SQL semantics reduce to equality on stored text, and a table's unique constraints other than primary keys are not part of this model.
- Accounts.Login: the table is a sequence and a lookup returns the first matching row. The login query has no `ORDER BY`, so when several rows match (possible only after a case-variant sign-up), PostgreSQL does not fix which one it returns. The model, and Accounts.CaseVariantLockedOut with it, assume insertion order.
- Login does not check for a missing connection pool, and would panic on one; that path is not modelled.
- Read-only handlers (profile, drop listing, drop details), process start-up, connection setup and token minting are not part of this model. Only the claims of minted tokens appear.
- Concurrency between requests is not modelled: each handler runs against a snapshot of the world.

## Findings

| source | as written | input that shows it | evidently intended | confidence | as-written member | corrected member |
|---|---|---|---|---|---|---|
| internal/handlers/auth_handlers.go:36-63 | the duplicate check compares the email as sent, but the insert stores it lower-cased | table holds "ann@x.io"; sign-up with "Ann@x.io" and a new username | a sign-up whose folded email is already stored is refused with 409 | medium, not executed (a unique index on `users.email`, if the schema has one, would turn it into a 500 instead) | Accounts.SignUpAdmitsCaseVariant | Accounts.SignUpFoldedKeepsUnique |
| internal/handlers/drop_handlers.go:60-279 | the upload stores `uuid.Parse` of the caller, in canonical form, but the delete compares the stored owner with the raw `sub` text | a token whose `sub` is an upper-case UUID uploads a drop, then deletes it with the same token | the uploader can delete its own drop | low, not executed (it matters only if tokens carry non-canonical UUIDs) | Routes.NonCanonicalOwnerLockedOut | Routes.CanonicalOwnerRetracts |
