# Photo booth: a Dafny model of the upload, validation and processing logic

This project models the decision logic of a photo-booth web application.
In the browser, a user picks an image. It is validated, then uploaded over
up to three transports (XMLHttpRequest with progress, `fetch` multipart,
`fetch` with a base64 JSON body). Each transport has its own bounded,
exponentially backed-off retry loop. The server validates the upload and runs
it through an image pipeline. It stores a record of the result, and it maps
every failure to an HTTP status and a JSON error body.

The model covers:

- **Api** (`api.dfy`): the client transports, as pure functions from an
  abstract network exchange to a settled promise.
- **Retry** (`retry.dfy`): `withRetry`, as a function from "how call k
  settles" to the run it produces. The run holds the retries, each with its
  delay and its `onRetry` payload, and the final outcome.
- **Photo** (`photo_context.dfy`): the photo context's upload state machine
  and its three-transport fallback chain.
- **DataUrl** and **Validation** (`data_url.dfy`, `validation.dfy`): the
  server's request-validation middleware. It parses `data:<mime>;base64,...`
  URLs as in section 3 of RFC 2397, and it estimates the decoded size from
  the base64 quantum of section 4 of RFC 4648.
- **ErrorHandler** (`error_handler.dfy`): the error handler's classification.
  The statuses are those of RFC 9110, section 15.
- **ImageService** (`image_service.dfy`): the image service around its
  pipeline. The pipeline itself is an opaque function parameter.
- **ImageController** (`image_controller.dfy`): the image controller, with
  its in-memory record store.
- **Cleanup** and **Logger** (`cleanup.dfy`, `logger.dfy`): the retention
  sweep and the log-level filter.
- The view helpers of the drop zone, the application context, the uploader,
  the result and processing pages, and the two animations.

`base.dfy` holds the string helpers. JavaScript's `split`, `indexOf` and
`lastIndexOf` are defined once there, with contracts, together with number
formatting and its parse-back.

Clocks, randomness, the file system, the network and the image pipeline are
all parameters. Each timer delay is recorded as a number, not waited for.

The network parameter of the upload chain also says which XHR handler
settles a request that got no response. With `AsWritten`, the program as it
is, the ready-state handler rejects first with 'Upload failed' and status 0
(see "## Findings"). With `AsIntended`, the timeout and error handlers take
effect. Every property of the chain below holds under both. The one lemma that
depends on the difference is stated once for each.

Three behaviours of the code are easy to misread, and the model follows
the code in each:

- The client's fallback chain catches every error and moves on to the next
  transport (frontend/src/context/PhotoContext.jsx:145, 172). A
  non-retryable status only stops the current transport's retry loop.
- `maxRetries` counts retries, so `maxRetries: 3` means up to four calls
  (frontend/src/utils/api.js:40-60).
- The middleware's base64 size estimate takes the text between the first and
  second commas, `split(',')[1]`
  (backend/src/middleware/validationMiddleware.js:94-121). It does not take
  everything after the first comma.

## Model

| member | source | states |
|---|---|---|
| Api.DefaultShouldRetryClasses | frontend/src/utils/api.js:44 | the default predicate retries exactly status 408 and statuses of 500 and up; it never retries status 0, another 4xx, or an error without a status |
| Api.DefaultShouldRetry | frontend/src/utils/api.js:44 | the default `shouldRetry`: a status of at least 500, or exactly 408 |
| Api.ProgressReport | frontend/src/utils/api.js:96-101 | a progress report is made exactly when the length is computable; it is 100·loaded/total rounded half up, and it lies in 0..100 when loaded ≤ total |
| Api.FailureMessage | frontend/src/utils/api.js:114-127 | the message of a non-2xx rejection is the body's non-empty `error.message`, else 'Upload failed' for a parsed body, else the status text or 'Upload failed'; it is never empty |
| Api.XhrStatusZero | frontend/src/utils/api.js:104-128 | a request that got no response reaches the ready-state handler with status 0 and is rejected with that status |
| Api.XhrSettleAsWritten | frontend/src/utils/api.js:104-140 | as written, the XHR transport fulfils exactly on a 2xx response whose body parses, with that body; a 2xx body that does not parse rejects with 'Failed to parse response' and the status; every request without a response rejects with 'Upload failed' and status 0 |
| Api.XhrSettleWith | frontend/src/utils/api.js:104-140 | a response is settled the same under both handler semantics; without one, the as-written handlers reject with 'Upload failed'/0 and the intended ones follow the timeout and error handlers |
| Api.XhrTimeoutNotRetriedAsWritten | frontend/src/utils/api.js:104-140 | as written, an XHR timeout rejects with 'Upload failed' and status 0, which the default predicate does not retry |
| Api.XhrSettle | frontend/src/utils/api.js:132-140 | with the intended handlers, a timeout rejects with 'Request timed out'/408, a network failure with 'Network error'/0, and a response is handled as written |
| Api.XhrTimeoutRetried | frontend/src/utils/api.js:138-140 | under the intended handlers an XHR timeout is retryable and a network error never is |
| Api.FetchSettle | frontend/src/utils/api.js:166-212 | the `fetch` transport fulfils exactly on a 2xx response whose body parses; it rejects without a status exactly on a network failure or an unparsable 2xx body; the timeout race rejects with 'Request timed out'/408 |
| Api.JsonSettle | frontend/src/utils/api.js:214-278 | a failed file read rejects with neither message nor status; a sent request settles exactly like the `fetch` transport |
| Api.NonOkResponseRejection | frontend/src/utils/api.js:185-198 | on any non-2xx response all three transports reject identically, with the response status and the shared failure message |
| Api.TransportsFulfilOnParsedSuccess | frontend/src/utils/api.js:238-254 | every transport fulfils exactly on a 2xx response whose body parses, and then with that body; the JSON transport settles like `fetch` once the file is read |
| Retry.Loop | frontend/src/utils/api.js:50-70 | from iteration k, the loop's retries are numbered from k+1, each follows a retryable rejection of the call before it, and the run ends with the outcome of its last call, rejected only at the budget or on a non-retryable error |
| Retry.WithRetry | frontend/src/utils/api.js:40-71 | at most `maxRetries` retries; retry k follows a retryable rejection of call k−1, waits `retryDelay·2^(k−1)` and passes that error to `onRetry`; the result is the last call's outcome; a rejection means the budget is spent or the error is not retryable |
| Retry.WithRetryUnique | frontend/src/utils/api.js:40-71 | any run satisfying those promises is the one `withRetry` produces, so the contract determines the behaviour completely |
| Retry.FirstSuccessWins | frontend/src/utils/api.js:61 | when calls 0..j−1 reject retryably and call j fulfils within the budget, the result is call j's value after exactly j+1 calls, with no further call |
| Retry.NonRetryableRethrown | frontend/src/utils/api.js:66-67 | a rejection the predicate refuses is rethrown at once after j+1 calls, even with retries left |
| Retry.ExhaustedBudget | frontend/src/utils/api.js:63-68 | when every call rejects retryably, `maxRetries + 1` calls are made and the last call's error is thrown |
| Retry.StopsAtFirstNonRetryable | frontend/src/utils/api.js:50-70 | the number of retries is exactly the index of the first call that fulfils, rejects non-retryably, or reaches the budget |
| Retry.TotalWaitGeometric | frontend/src/utils/api.js:53-56 | the first n retries wait `retryDelay·(2^n − 1)` ms in total; there is no wait before the first call |
| Photo.SizeMessageText | frontend/src/context/PhotoContext.jsx:67 | the size message computed from the 10 MiB limit reads 'File too large. Maximum size: 10MB' |
| Photo.ResetState | frontend/src/context/PhotoContext.jsx:41-49 | after a reset the state is IDLE with no file, preview, result or error, and progress and retry count are 0, whatever the state before |
| Photo.ValidateFile | frontend/src/context/PhotoContext.jsx:54-71 | a file passes exactly when it is present, JPEG or PNG, and at most 10 MiB; otherwise the missing-file, type or size message is given, checked in that order |
| Photo.SizeBoundary | frontend/src/context/PhotoContext.jsx:66 | a file of exactly 10 MiB passes and one byte more gets the size message |
| Photo.HandleFileSelect | frontend/src/context/PhotoContext.jsx:76-98 | the handler passes through VALIDATING; a valid file becomes the selection with its preview and the state returns to IDLE; an invalid one keeps the previous selection, shows its message in ERROR and is rethrown |
| Photo.Settle | frontend/src/context/PhotoContext.jsx:123-190 | call k of the XHR, `fetch` or JSON transport settles as that transport settles exchange k; XHR under the network's handler semantics, `AsWritten` for the program as it is |
| Photo.LegRun | frontend/src/context/PhotoContext.jsx:123-190 | each transport's leg is its own `withRetry` run, under the chain's options for it and the default predicate |
| Photo.TryTransport | frontend/src/context/PhotoContext.jsx:119-136 | a transport's run is its retry loop under its chain options, with XHR settling under the network's handler semantics; only XHR reports progress, and that stays in 0..100; the last `onRetry` call receives the number of retries made |
| Photo.AfterReportsInRange | frontend/src/utils/api.js:96-101 | a sequence of progress reports with loaded ≤ total leaves the progress value in 0..100 |
| Photo.AfterAttemptsInRange | frontend/src/context/PhotoContext.jsx:125-127 | over any number of XHR attempts whose events have loaded ≤ total, the progress value stays in 0..100 |
| Photo.Attempts | frontend/src/context/PhotoContext.jsx:119-198 | there is one attempt per transport of the chain, in chain order, each that transport's own retry loop, with XHR under the network's handler semantics |
| Photo.TerminalMessage | frontend/src/context/PhotoContext.jsx:203 | the message shown when the chain gives up is the error's own, or 'Upload failed' when that is empty; it is never empty |
| Photo.Fallback | frontend/src/context/PhotoContext.jsx:120-198 | transports run strictly in chain order from UPLOADING with progress 0; every transport before the last one tried rejected; the first fulfilment ends in SUCCESS with its result, and a rejection of the last transport ends in ERROR and is rethrown |
| Photo.FallbackPath | frontend/src/context/PhotoContext.jsx:138-195 | the upload states the chain sets follow the allowed moves and end in SUCCESS or ERROR |
| Photo.FallbackCounters | frontend/src/context/PhotoContext.jsx:150-177 | the final progress and retry counter are the ones the last transport tried left |
| Photo.FallbackStartCounters | frontend/src/context/PhotoContext.jsx:131-186 | when no transport retried, the last transport starts with the retry counter the chain was entered with |
| Photo.UploadAndProcess | frontend/src/context/PhotoContext.jsx:103-207 | no file gives ERROR 'No file selected' without a throw; an invalid file gives ERROR with its message and is rethrown; otherwise UPLOADING with progress 0 and the error cleared, then the fallback chain, whose XHR leg settles under the network's handler semantics (`AsWritten` for the program as it is); the selection is never changed |
| Photo.UploadStatesFollowNext | frontend/src/context/PhotoContext.jsx:103-207 | every upload's sequence of states follows the transition relation and ends in SUCCESS or ERROR |
| Photo.SuccessIffSomeTransportFulfils | frontend/src/context/PhotoContext.jsx:119-198 | an upload of a valid file succeeds exactly when some transport fulfils on its own, and then with the first such result after all earlier transports rejected |
| Photo.AnyRejectionFallsBack | frontend/src/context/PhotoContext.jsx:145-172 | any rejection of XHR, retryable or not, leads to `fetch`, and a rejection of both leads to JSON |
| Photo.AllTransportsRejected | frontend/src/context/PhotoContext.jsx:200-205 | when all three transports reject, the upload ends in ERROR showing the JSON transport's error message and rethrows that error |
| Photo.UploadCounters | frontend/src/context/PhotoContext.jsx:116-186 | once a second transport runs, the final progress is 0; progress stays in 0..100; the retry counter is never reset, so an upload without retries keeps the earlier count |
| Photo.XhrTimeoutsFallBackToFetch | frontend/src/context/PhotoContext.jsx:123-153 | as written, an XHR request that times out is rejected with 'Upload failed'/0, which is not retried: one request, no wait, no `onRetry` call and so an unchanged retry counter, then `fetch` from progress 0 |
| Photo.XhrTimeoutsRetriedAsIntended | frontend/src/context/PhotoContext.jsx:123-153 | with the intended handlers, timeouts are retried: four XHR requests 1000, 2000 and 4000 ms apart, then `fetch` from progress 0 |
| Photo.RetryUpload | frontend/src/context/PhotoContext.jsx:212-219 | with a selected file a retry is a fresh upload of that file; without one it shows 'No file to retry', rejects, and leaves the upload state alone |
| DataUrl.MediaType | backend/src/middleware/validationMiddleware.js:100 | the declared media type of a data URL contains neither ';' nor ':' |
| DataUrl.CommaPayload | backend/src/middleware/validationMiddleware.js:110 | the payload the middleware measures contains no comma |
| DataUrl.LastOccurrence | backend/src/services/imageService.js:23 | the position found is an occurrence of the marker, no later occurrence exists, and there is none exactly when the string does not contain the marker |
| DataUrl.Base64Payload | backend/src/services/imageService.js:23 | when the URL contains `;base64,` the payload is the text after its last occurrence: a marker ends just before the payload and none starts later; without the marker the payload is the whole string |
| DataUrl.MediaTypeOf | backend/src/services/imageService.js:194 | a data URL `data:<mime>;...` declares exactly `<mime>` when the mime has no ';' or ':' |
| DataUrl.CommaPayloadOf | backend/src/middleware/validationMiddleware.js:110 | with a single comma, the middleware measures exactly the text after it |
| DataUrl.PayloadsAgree | backend/src/services/imageService.js:23 | for a well-formed base64 data URL, the middleware and the service extract the same payload |
| Validation.MegabytesText | backend/src/middleware/validationMiddleware.js:48 | the size in the messages is the limit in whole megabytes, rounded down |
| Validation.BaseName | backend/src/middleware/validationMiddleware.js:62 | the base is the longest suffix of the name without a '/' |
| Validation.ExtName | backend/src/middleware/validationMiddleware.js:62 | the extension is empty or a suffix of the name after its last '/', starting with its only '.'; it is never the whole base name |
| Validation.ExtNameOfSuffix | backend/src/middleware/validationMiddleware.js:62 | a name ending in one extension (a '.' with no later '.' or '/') has exactly that extension whenever its part after the last '/' has a character other than '.' before it, as `my.photo.jpg`, `dir/a.png` and `.hidden.gif` do |
| Validation.FindMatchingType | backend/src/middleware/validationMiddleware.js:63-68 | the loop finds the first allowed type the uploaded file matches by extension, `.jpg` for JPEG, or mimetype, and finds none exactly when no type matches |
| Validation.FirstMatch | backend/src/middleware/validationMiddleware.js:63-68 | `some` as a loop: the index of the first type the extension and mimetype match, none exactly when no type matches |
| Validation.LastExtension | backend/src/middleware/validationMiddleware.js:62 | the text of a base from its last '.' (not its first character) on starts with that '.', has no other '.' and no '/', and ends the name right after a character other than '/' |
| Validation.ApproximateSize | backend/src/middleware/validationMiddleware.js:111 | the estimate is the ceiling of 3n/4 |
| Validation.CheckMulterFile | backend/src/middleware/validationMiddleware.js:34-55 | a multer file passes exactly when its type is allowed and its size is within the limit; the type is checked first (415), then the size (413) |
| Validation.CheckUploadedFile | backend/src/middleware/validationMiddleware.js:58-87 | an uploaded file passes exactly when some allowed type matches it and it is within the limit; an unmatched type is 415, an oversized file 413 |
| Validation.CheckDataUrl | backend/src/middleware/validationMiddleware.js:94-121 | a data URL passes exactly when it starts with `data:image/`, declares an allowed type, and its estimated size is within the limit; a 413 implies the estimate exceeds the limit |
| Validation.ValidateFileUpload | backend/src/middleware/validationMiddleware.js:22-136 | the first source present decides alone (multer file, then uploaded file, then body string); a 400 'No image file provided' occurs exactly when no source is usable and an image is required; every rejection is 400, 413 or 415 |
| Validation.DefaultRequiresImage | backend/src/middleware/validationMiddleware.js:24-29 | under the default options a request without an image is rejected with 400 |
| Validation.FieldError | backend/src/middleware/validationMiddleware.js:149-171 | an empty required field records '<field> is required'; an empty optional one records nothing; a present one records the validator's result |
| Validation.ErrorsEmptyIff | backend/src/middleware/validationMiddleware.js:146-176 | no error is recorded exactly when every field of the schema passes |
| Validation.ErrorsBounded | backend/src/middleware/validationMiddleware.js:149-171 | at most one error is recorded per field |
| Validation.ValidateBody | backend/src/middleware/validationMiddleware.js:143-184 | the request passes exactly when no field records an error; otherwise it is rejected once with 400 and all errors in schema order joined by ', '; a missing body throws as soon as a field is read |
| ErrorHandler.TypeNameInjective | backend/src/middleware/errorHandler.js:92-121 | distinct error types are sent under distinct type names |
| ErrorHandler.DefaultStatus | backend/src/middleware/errorHandler.js:91 | the default status is the error's own non-zero status; without one, or with 0, it is 500 |
| ErrorHandler.DefaultMessage | backend/src/middleware/errorHandler.js:93 | the default message is the error's own message when non-empty, and 'Internal server error' when empty |
| ErrorHandler.HandleError | backend/src/middleware/errorHandler.js:83-139 | exactly one of the six error types applies, each under its own condition in branch order, with the status and message of its branch; the stack is sent exactly outside production |
| ErrorHandler.ProductionMasksOnlyServerErrors | backend/src/middleware/errorHandler.js:123-136 | production mode changes neither status nor type; a message changes only for a 500 server error, which becomes 'Internal server error' |
| ErrorHandler.StatusNeverZero | backend/src/middleware/errorHandler.js:91-131 | every response carries a non-zero status |
| ImageService.ValidateImage | backend/src/services/imageService.js:186-204 | image data is valid exactly when it is a string starting with `data:image/` that declares JPEG, PNG or GIF |
| ImageService.ValidDataUrl | backend/src/services/imageService.js:186-204 | every base64 data URL of an allowed type is valid |
| ImageService.SourceOf | backend/src/services/imageService.js:19-30 | a buffer is used directly; a `data:image/` string is decoded from its base64 payload; another string is read as a path exactly when that file exists; everything else fails with 'Invalid image data format' |
| ImageService.OriginalSize | backend/src/services/imageService.js:37-41 | the original size is a buffer's length, an existing file's size, and 0 otherwise |
| ImageService.OutputFormat | backend/src/services/imageService.js:133 | the output format is the requested one, or 'jpeg' when none is given; it is never empty |
| ImageService.EncoderOptions | backend/src/services/imageService.js:134-140 | JPEG is encoded at quality 90 and PNG at compression level 9, exactly for those formats |
| ImageService.OutputUrl | backend/src/services/imageService.js:146-164 | the URL is `/api/image/<ts>` on Vercel, else `/uploads/processed_<ts>.<format>` |
| ImageService.OutputUrlInjective | backend/src/services/imageService.js:146-164 | different timestamps give different URLs in either environment |
| ImageService.Prefixed | backend/src/services/imageService.js:175-178 | a rethrown message starts with 'Failed to process image: ' and the original message follows it unchanged |
| ImageService.ProcessImage | backend/src/services/imageService.js:14-178 | every failure carries the prefix; an unusable input fails as 'Invalid image data format'; a success holds the pipeline's buffer and its length, the original size, the filters (default 'photo-booth') and the output URL; a failure past the input comes from the pipeline or from writing the file |
| ImageController.FindImage | backend/src/controllers/imageController.js:38-83 | inputs are taken in precedence order. A multer file gives its buffer, or else the bytes read back from its path, and a failed read fails the request. An uploaded file that fails to move fails with the move's error; otherwise the bytes are read back from `<uploadsDir>/<stamp>-<name>`, which becomes the temp path. Then comes a truthy body string passing image validation. A non-string body value, an invalid string and a missing image each get their own 400 |
| ImageController.RemovedFile | backend/src/controllers/imageController.js:89-91 | the temporary file is removed exactly when there is one and it exists |
| ImageController.DataLength | backend/src/controllers/imageController.js:87 | the size compared with the limit is a buffer's byte count or a string's length |
| ImageController.ServiceOptions | backend/src/controllers/imageController.js:100-102 | the service gets the request's filters, or `['auto-enhance']` without them, and no format |
| ImageController.ProcessImage | backend/src/controllers/imageController.js:33-153 | a lookup failure is a 500 'Failed to process image: ' plus its message; a refused request gets its 400 and leaves the store alone; an image over 10 MiB gets a 400 and its temp file removed; a service failure is a 500 with the service's message after the prefix; a processed image appends one record with the new id, the service's sizes, its URL or the example URL, and the creation time, then answers with the raw bytes (leaving the temp file, since that path returns before the cleanup) or with a 200 JSON naming the record (removing the temp file) |
| ImageController.ServiceFailureDoublePrefixed | backend/src/controllers/imageController.js:146-152 | a failure inside the image service reaches the client with 'Failed to process image: ' twice |
| ImageController.OversizedRejected | backend/src/controllers/imageController.js:86-97 | an image larger than 10 MiB gets a 400, leaves the store alone, and its saved temporary file, if one exists, is removed |
| ImageController.FindFirst | backend/src/controllers/imageController.js:191 | the index found holds the id and no earlier record does; none is found exactly when no record has the id |
| ImageController.GetImageById | backend/src/controllers/imageController.js:187-215 | an image is found exactly when some record has the id, and it is shown as that record's view; otherwise 404 'Image not found' |
| ImageController.EarliestRecordWins | backend/src/controllers/imageController.js:191 | when ids repeat, the earliest record with the id is the one returned |
| ImageController.GetAllImages | backend/src/controllers/imageController.js:160-172 | the list has one view per record, in store order |
| ImageController.StoredRecordFound | backend/src/controllers/imageController.js:108-120 | a freshly stored record with a new id is found by that id and listed last |
| Cleanup.Cutoff | backend/src/utils/cleanupService.js:15-25 | the cutoff is `now` minus the given age in hours, times 3,600,000 ms, or minus 24 hours by default; it is never later than `now` for a non-negative age |
| Cleanup.Removed | backend/src/utils/cleanupService.js:32-52 | a name is removed exactly when its entry is not hidden, was modified strictly before the cutoff, and unlinks successfully |
| Cleanup.CleanupOldFiles | backend/src/utils/cleanupService.js:15-60 | a missing or unreadable directory gives 0; otherwise the count is the number of expired entries that were unlinked, with failing entries skipped |
| Cleanup.CutoffIsStrict | backend/src/utils/cleanupService.js:43 | a file modified exactly at the cutoff is kept |
| Cleanup.RemovedMonotone | backend/src/utils/cleanupService.js:24-47 | a later cutoff removes everything an earlier one does, and possibly more |
| Cleanup.HiddenNeverRemoved | backend/src/utils/cleanupService.js:34 | a name starting with '.' is never removed |
| Logger.LevelNamed | backend/src/utils/logger.js:8-28 | a name denotes a level exactly when it is one of the four upper-case names |
| Logger.CurrentLevel | backend/src/utils/logger.js:18 | an unset or empty LOG_LEVEL means INFO; any other value is used as it is |
| Logger.ShouldLog | backend/src/utils/logger.js:35-37 | a level passes exactly when the current level is one of the four names and its priority is at least the level's; nothing passes under an unknown current level |
| Logger.ShouldLogByPriority | backend/src/utils/logger.js:23-37 | under every known current level, a level passes exactly when its priority is at most the current level's |
| Logger.ShouldLogMonotone | backend/src/utils/logger.js:35-37 | when a level passes, every more severe level passes too |
| Logger.DefaultLevelFilter | backend/src/utils/logger.js:18-37 | under the default level ERROR, WARN and INFO pass and DEBUG does not |
| Logger.OwnLevelPasses | backend/src/utils/logger.js:35-37 | a level passes under itself, and ERROR passes under every known level |
| Logger.UnknownLevelSilent | backend/src/utils/logger.js:18-37 | a current level outside the table, lower-case names included, suppresses every message |
| Logger.FormatLog | backend/src/utils/logger.js:46-50 | the line is `[timestamp] [LEVEL] message`, followed by a newline and the data's JSON exactly when data is given |
| Logger.FormatLogLines | backend/src/utils/logger.js:46-50 | the first line is the header with the message; without data the output is that single line |
| Logger.Emit | backend/src/utils/logger.js:57-94 | a call writes a line exactly when its level passes the filter, and that line carries the level's header |
| DropZone.ValidateFile | frontend/src/components/DropZone.jsx:14-26 | a file passes exactly when it is at most 10 MiB and JPEG or PNG; an oversized file gets the size message whatever its type |
| DropZone.OnDrop | frontend/src/components/DropZone.jsx:28-50 | an empty drop changes nothing; only the first file is checked; a failing file shows its message and is not read; a passing file clears the error and is read |
| DropZone.OnDropRejected | frontend/src/components/DropZone.jsx:52-54 | a rejected drop shows the generic rejection message |
| DropZone.OnlyFirstFileCounts | frontend/src/components/DropZone.jsx:31 | files after the first never influence a drop |
| DropZone.AgreesWithPhotoContext | frontend/src/components/DropZone.jsx:14-26 | the drop zone and the photo context accept the same files, but an oversized file of the wrong type gets the size message here and the type message there |
| AppContext.AddRecentImage | frontend/src/context/AppContext.jsx:28-34 | the new image comes first, the previous ones follow in order, and the length is min(old + 1, 10) |
| AppContext.NewestFirst | frontend/src/context/AppContext.jsx:30-31 | after two additions the later image is first and the earlier second |
| AppContext.KeptForNineMore | frontend/src/context/AppContext.jsx:30-32 | an added image survives fewer than ten further additions, moving down one place each time |
| AppContext.ToggleTheme | frontend/src/context/AppContext.jsx:37-39 | the result is 'dark' exactly when the theme was 'light', and it is always 'light' or 'dark' |
| AppContext.ToggleTwice | frontend/src/context/AppContext.jsx:37-39 | toggling twice returns 'light' or 'dark' to itself, and takes any other value to 'dark' |
| AppContext.AddNotification | frontend/src/context/AppContext.jsx:17-19 | one entry with the id and message is appended after the unchanged list, its type defaulting to 'info' |
| AppContext.RemoveNotification | frontend/src/context/AppContext.jsx:22-23 | removal keeps exactly the entries with other ids |
| AppContext.RemoveSingle | frontend/src/context/AppContext.jsx:23 | a single entry is kept exactly when its id differs |
| AppContext.RemoveConcat | frontend/src/context/AppContext.jsx:23 | removal from a concatenation is removal from each part, concatenated, so the kept entries stay in order with their multiplicity |
| AppContext.RemoveAbsent | frontend/src/context/AppContext.jsx:23 | removing an id no entry has leaves the list unchanged |
| AppContext.RemoveAfterAdd | frontend/src/context/AppContext.jsx:17-24 | removing a notification just added under a fresh id gives back the list it was added to |
| Uploader.IsLoading | frontend/src/components/ImageUploader.jsx:161 | the uploader is loading exactly while uploading or processing |
| Uploader.ActionButton | frontend/src/components/ImageUploader.jsx:108-157 | upload is offered exactly in IDLE with a file, retry exactly in ERROR, and reset exactly in SUCCESS; nothing is offered while validating, uploading or processing |
| Uploader.LoadingMessage | frontend/src/components/ImageUploader.jsx:164-171 | the message is 'Retrying upload (n)' while uploading after n > 0 retries, 'Uploading your image' otherwise while uploading, 'Processing your masterpiece' while processing, and 'Loading' in any other state. This is the message handed to the animation; the animation copies it into its own state only when it mounts (frontend/src/components/animations/LoadingAnimation.jsx:27), so a later 'Retrying upload (n)' is passed but not shown |
| Uploader.RetryCountReadable | frontend/src/components/ImageUploader.jsx:166 | the retry count can be read back from the digits of a retry message |
| Uploader.ContainerClass | frontend/src/components/ImageUploader.jsx:174-182 | the base classes always come first; a red border is added exactly in ERROR and a green one exactly in SUCCESS |
| Uploader.SecondaryButton | frontend/src/components/ImageUploader.jsx:291-298 | the button shows exactly with a file while not loading; it reads 'New Image' exactly in SUCCESS and 'Cancel' otherwise |
| Uploader.ProgressShown | frontend/src/components/ImageUploader.jsx:226 | progress is passed exactly while uploading, and then it is the upload progress |
| Uploader.PreviewSource | frontend/src/components/ImageUploader.jsx:241 | the preview shows the processed URL exactly in SUCCESS with a result, and the local preview otherwise |
| Uploader.LoadingHidesControls | frontend/src/components/ImageUploader.jsx:161-171 | while loading, neither the action nor the secondary button is offered, and the message is never the generic 'Loading' |
| Uploader.SettledUploadOffersAction | frontend/src/components/ImageUploader.jsx:129-153 | every state an upload ends in offers an action button |
| ResultPage.StripExtension | frontend/src/pages/ResultPage.jsx:33 | the stem is the name cut before the '.' where the regular expression `\.[^/.]+$` matches, or the whole name when it matches nowhere |
| ResultPage.StripsLastExtension | frontend/src/pages/ResultPage.jsx:33 | only the last extension is removed, even when the stem has dots of its own |
| ResultPage.KeepsNameWithoutExtension | frontend/src/pages/ResultPage.jsx:33 | a name without a dot, or ending in one, keeps its full text |
| ResultPage.DownloadName | frontend/src/pages/ResultPage.jsx:32-34 | a non-empty name gives `processed_<stem>.jpg`; an empty one gives `processed_photo_` plus the first ten characters of the date and `.jpg` |
| ResultPage.DoubleExtension | frontend/src/pages/ResultPage.jsx:33 | `a.tar.gz` downloads as `processed_a.tar.jpg` |
| ResultPage.RedirectsToUpload | frontend/src/pages/ResultPage.jsx:18-22 | the page stays exactly when a processed photo is present and the status is SUCCESS |
| ResultPage.RendersContent | frontend/src/pages/ResultPage.jsx:91 | the page renders content exactly when a processed photo is present |
| ResultPage.StaysOnlyWhenShowing | frontend/src/pages/ResultPage.jsx:18-91 | whenever the page does not redirect, it renders the photo |
| LoadingAnimation.ClampProgress | frontend/src/components/animations/LoadingAnimation.jsx:83 | the width lies in 0..100, equals the progress inside that range, and is 0 below and 100 above it |
| LoadingAnimation.ClampIdempotent | frontend/src/components/animations/LoadingAnimation.jsx:83 | clamping twice is clamping once |
| LoadingAnimation.ClampMonotone | frontend/src/components/animations/LoadingAnimation.jsx:83 | clamping preserves the order of progress values |
| LoadingAnimation.NextEmoji | frontend/src/components/animations/LoadingAnimation.jsx:35 | the next index is always below 6, and it is one more than the current index except at the wrap |
| LoadingAnimation.EmojiCycle | frontend/src/components/animations/LoadingAnimation.jsx:14-39 | after k ticks from the start the index is k mod 6 |
| LoadingAnimation.NextDots | frontend/src/components/animations/LoadingAnimation.jsx:57-58 | a tick adds a dot below three dots and starts over from none at three |
| LoadingAnimation.DotsCycle | frontend/src/components/animations/LoadingAnimation.jsx:54-62 | after k ticks there are k mod 4 dots, so never more than three |
| LoadingAnimation.DotsPeriod | frontend/src/components/animations/LoadingAnimation.jsx:58 | the dots repeat with period 4 |
| LoadingAnimation.Render | frontend/src/components/animations/LoadingAnimation.jsx:64-86 | nothing renders when not loading; the bar renders exactly when progress is given, with its clamped width |
| ProcessingPage.PadTwo | frontend/src/pages/ProcessingPage.jsx:201 | the padded seconds are at least two digits, exactly two below 100, and read back as the number |
| ProcessingPage.FormatElapsed | frontend/src/pages/ProcessingPage.jsx:201 | the display is minutes, a ':' and the padded seconds |
| ProcessingPage.ElapsedReadsBack | frontend/src/pages/ProcessingPage.jsx:201 | the display splits at ':' into minutes and a two-digit seconds field below 60, and minutes·60 + seconds is the elapsed time |
| ProcessingPage.ElapsedLine | frontend/src/pages/ProcessingPage.jsx:200-202 | the elapsed line is shown exactly when the time is positive |
| ProcessingPage.SettledUploadLeavesPage | frontend/src/pages/ProcessingPage.jsx:87-119 | whatever an upload ends in, the page moves on to the result after a success and shows the error view otherwise |
| ProcessingPage.OnStatus | frontend/src/pages/ProcessingPage.jsx:69-74 | entering UPLOADING or PROCESSING resets the counter to 0; any other status leaves it |
| ProcessingPage.Tick | frontend/src/pages/ProcessingPage.jsx:76-78 | each second adds one while uploading or processing; otherwise the counter does not move |
| ProcessingPage.CountsTicks | frontend/src/pages/ProcessingPage.jsx:69-84 | after entering an active status, k ticks show exactly k seconds; an inactive status freezes the count |
| ProcessingPage.OnMount | frontend/src/pages/ProcessingPage.jsx:99-111 | without an original photo the page returns to upload; processing starts exactly from IDLE with a photo |
| ProcessingPage.GoesToResult | frontend/src/pages/ProcessingPage.jsx:87-96 | the page moves to the result exactly on SUCCESS with a processed photo |
| ProcessingPage.ShowsError | frontend/src/pages/ProcessingPage.jsx:119 | the error view shows exactly with a non-empty error or in ERROR |
| ProcessingPage.NoRestart | frontend/src/pages/ProcessingPage.jsx:106-109 | once the status has left IDLE, mounting again does not restart processing |
| SlideTransition.TransformValue | frontend/src/components/animations/SlideTransition.jsx:31-46 | visible elements are at the origin; hidden ones are offset by the distance down, up, right or left for 'up', 'down', 'left' and 'right', and like 'up' for anything else |
| SlideTransition.VisibleIgnoresDirection | frontend/src/components/animations/SlideTransition.jsx:32 | a visible element's transform does not depend on the direction |
| SlideTransition.UnknownDirectionIsUp | frontend/src/components/animations/SlideTransition.jsx:43-44 | an unrecognised direction behaves exactly like 'up' |
| SlideTransition.OppositeDirections | frontend/src/components/animations/SlideTransition.jsx:35-42 | opposite directions give the same distance, negated on one side |
| SlideTransition.DefaultsSlideFromBelow | frontend/src/components/animations/SlideTransition.jsx:21-22 | with the default direction and distance a hidden element sits at `translate(0, 100%)` |
| Base.Subtypes | backend/src/middleware/validationMiddleware.js:40 | the listed subtypes are, one for one, each allowed type's part after its first '/' |
| Base.Field | backend/src/middleware/validationMiddleware.js:100 | a field of a split contains no separator, and it is absent exactly past the last field |
| Base.ParseNatToString | frontend/src/components/ImageUploader.jsx:166 | a number written in decimal reads back as itself |

## Left out

- The image pipeline's styling stages are out of scope: tone curves, colour matrix, tint, blur, vignette, noise and encoding (backend/src/services/imageService.js:32-143). They are a foreign library and floating-point pixel maths. The pipeline is one function parameter from input, format and options to bytes or a failure.
- The transports and timers are not run: `XMLHttpRequest`, `fetch`, `FileReader`/`fileToBase64`, the `withTimeout` race and the `setTimeout` delays. Each request is an abstract exchange; a `withTimeout` expiry is the `TimedOut` exchange, and each delay is recorded in the run.
- `getProcessedImages` and `getProcessedImageById` (frontend/src/utils/api.js:280-368) are left out. They wrap `fetch` in `withRetry` the same way as the modelled transports, and no modelled flow calls them.
- The `onRetry` console logging and the `details` field of `ApiError` are left out. Neither affects control flow.
- File and log I/O are parameters or left out:
  - The error handler's file logging and its temporary-file cleanup (backend/src/middleware/errorHandler.js:58-66) are left out.
  - `fs` reads, writes and unlinks are parameters: the read outcome, a write error, whether a file exists, its size.
  - `scheduleCleanup`'s interval timer (backend/src/utils/cleanupService.js:68-83) is left out; one sweep is `Cleanup.CleanupOldFiles`.
- The logger's console writes are left out; `Logger.Emit` returns the line that would be written. The ISO timestamp is a parameter.
- `getUploadsDir` is a parameter: the uploads directory. `path.join` is written as a plain '/' concatenation.
- The controller assumes `req.body` is present. Express's body parsers always set it. A missing body would make `req.body.filters` throw, and the request would end as a 500.
- `Validation.Options` has no `minSize` field: the source reads that option but never uses it.
- `Base.ToLower` lower-cases ASCII letters only; JavaScript's `toLowerCase` also maps non-ASCII letters.
- `Validation.ExtName` takes the text after the last '/'. Node's `path.extname` first drops trailing separators, so a name ending in '/' differs. Uploaded file names do not end in '/'.
- `Validation.ValidateBody` takes the schema as a sequence in `Object.keys` order, and a validator's result as an optional text. A non-`true`, non-string result is represented by the text `join` would write for it.
- `Cleanup.CleanupOldFiles` returns removed names, not joined paths, and takes modification times as whole milliseconds.
- `Api.ProgressReport` rounds the exact ratio half up. The source rounds a floating-point product, which can differ by one at exact halves.
- String lengths are counted in characters; JavaScript counts UTF-16 code units.
- The processing and result pages read names from the photo context that it does not provide: `PROCESSING_STATUS` (not exported), and `originalPhoto`, `processedPhoto`, `fileName`, `processPhoto`, `status`, `resetPhotos` and `processedImageId` (not in the provider's value). Their guards are modelled over the photo context's upload states, with the other values as inputs.
- As written, those names make the pages fail. `ProcessingPage` throws while rendering, because it reads `PROCESSING_STATUS.UPLOADING` of an undefined import (frontend/src/pages/ProcessingPage.jsx:29). `ResultPage`'s guard sees an undefined `processedPhoto` and always redirects to '/upload' (frontend/src/pages/ResultPage.jsx:18-22). The model does not promise this broken behaviour; it states the guards as the pages intend them.
- The pages' randomly chosen status messages and the animation's random microcopy are left out. The emoji glyphs are left out too; only their index is modelled.
- Event handlers that only forward to the photo context are left out: the uploader's drag and click handlers, the result page's share and image-error handlers, and the slide transition's mount/unmount timers.
- The application context's local-storage persistence and five-second notification timer are left out. The notification id, taken from the clock in the source, is a parameter.
- React's state batching and asynchronous re-entrancy are left out. Each handler is one atomic step from a state to a state.

## Findings

| source | as written | input that shows it | evidently intended | confidence | as-written member | corrected member |
|---|---|---|---|---|---|---|
| frontend/src/utils/api.js:104-140 | `onreadystatechange` rejects every non-2xx completion. The XMLHttpRequest Standard fires `readystatechange` (readyState 4, status 0) before the `timeout` and `error` events. A timed-out or failed request therefore rejects with 'Upload failed' and status 0, and the 408 and 'Network error' rejections never take effect. | An XHR upload that times out: it rejects with status 0, the default predicate refuses it, and no retry is made. | A timeout rejects with 'Request timed out' and 408, so it is retried; a network error rejects with 'Network error' and 0. | not executed | Api.XhrTimeoutNotRetriedAsWritten | Api.XhrTimeoutRetried |

The upload chain takes the handler semantics as part of its network
parameter (`Api.XhrSettleWith`), so both behaviours reach the chain:
`Photo.XhrTimeoutsFallBackToFetch` states what the program as written does
with a timed-out XHR upload, and `Photo.XhrTimeoutsRetriedAsIntended` what
the intended handlers would do.
