# AI image backend: a verified model of its request and job logic

This project models the logic of a small Laravel backend for storing images
and generating variations of them. Four pieces are modelled:

- **`GenerateMockImages`**: the queued job that fetches `count` placeholder
  images. It stores each one under `images/mocked/`, keeps a batch of rows,
  broadcasts a progress event per stored image, and bulk-inserts the batch
  at the end.
- **`ImageController`**:
  - `upload`: validate, store, create one row.
  - `generateImageVariations`: look the image up, call the generation API,
    download and store each returned variation, insert the rows in one
    query, and fall back to the mock-image job when the API reports its
    billing limit.
  - `getUserImages`: list every row.
- **`ImageGenerationProgress`**: the broadcast event. It goes out on the
  public channel `images.<user_id>` under the name `image.generated`.
- **`AddUserRole`**: the middleware that adds `role` to successful JSON
  answers for authenticated users.

The calls into the outside world are parameters of the model:

- storage `put`/`store` and `Storage::url` (`urlOf`);
- the HTTP fetches and downloads;
- the generation API;
- the Eloquent lookup and create, and the controller's insert;
- `uniqid()`.

The job's final `Image::insert` has no outcome input: the model takes it to
succeed (see "## Left out").

Each action returns its answer together with the trace of effects it had, in
order: stores, row writes, API requests, broadcasts, job dispatches and
the error and warning log lines. Views of the trace (`Puts`, `Inserts`,
`Creates`, `Broadcasts`, `Dispatches`, `Requests`) state what was written and
in which order.
`StoredBeforeRecorded` is the store-then-record invariant. It says every row
written points at bytes put to storage earlier in the same trace.
`Persist` replays a trace's row writes onto the table, so the listing can be
stated after an upload or a generation.

Files, one module each:

- `records.dfy` (Records): rows, JSON values, responses, call outcomes.
- `text.dfy` (Text): decimal text of numbers, `strpos`.
- `progress_event.dfy` (ProgressEvents): the broadcast event.
- `effects.dfy` (Effects): effect traces, their views, the store-then-record
  invariant, the table after a trace.
- `mock_images.dfy` (MockImages): the job. It is a class holding `count`, with
  `Handle` written as a loop. `Handle` is proved equal to the functions
  `Batch` and `JobTrace`, and the properties are proved about those functions.
- `image_controller.dfy` (ImageController): the controller actions.
  `GenerateImageVariations` is the action's loop, proved equal to the function
  `GenerateVariations`. `Upload` and `GetUserImages` are functions.
- `add_user_role.dfy` (AddUserRole): the middleware.

## Model

| member | source | states |
|---|---|---|
| MockImages.GenerateMockImages.constructor | app/Jobs/GenerateMockImages.php:23-26 | the job keeps the count it was created with |
| MockImages.GenerateMockImages.Handle | app/Jobs/GenerateMockImages.php:28-88 | the loop's batch and effect trace are exactly `Batch` and `JobTrace`: per attempt, a fetch failure logs and skips; a store failure logs and skips; a survivor stores `images/mocked/<filename>`, joins the batch and broadcasts its progress; then one insert or the warning |
| MockImages.SurvivorsExactly | app/Jobs/GenerateMockImages.php:33-62 | attempt `i` survives iff `1 <= i <= k` and its own fetch and store succeed; survivors are strictly ascending and at most `k` |
| MockImages.BatchIsSurvivorRows | app/Jobs/GenerateMockImages.php:55-62 | the batch has one row per survivor, in survivor order |
| MockImages.JobBatch | app/Jobs/GenerateMockImages.php:33-62 | item `i` is in the final batch iff its fetch and store succeed; ascending order; at most `count` rows; every row is owned by user 2, is `image/png`, is named `mocked_image_<uid>.png` and has the url of `images/mocked/<filename>` |
| MockImages.LoopPuts | app/Jobs/GenerateMockImages.php:37-51 | the loop stores exactly the survivors' paths, in order; a skipped attempt stores nothing |
| MockImages.PathsAreBatchPaths | app/Jobs/GenerateMockImages.php:48-62 | the stored paths are, one for one, the `images/mocked/` paths of the batch entries' filenames |
| MockImages.JobPuts | app/Jobs/GenerateMockImages.php:37-62 | the job stores one path per batch entry, that of the entry's filename, and nothing else |
| MockImages.LoopEvents | app/Jobs/GenerateMockImages.php:62-65 | the loop broadcasts exactly one event per survivor, in order |
| MockImages.EventsAreSurvivorEvents | app/Jobs/GenerateMockImages.php:53-65 | survivor `j`'s event carries that survivor's row and attempt number |
| MockImages.JobEvents | app/Jobs/GenerateMockImages.php:53-65 | one event per batch entry, in batch order; its payload is the entry's four columns plus the progress `(i, count)` of the attempt it came from |
| MockImages.ProgressOrder | app/Jobs/GenerateMockImages.php:53 | `(i / count) * 100` grows strictly with `i` |
| MockImages.ProgressFull | app/Jobs/GenerateMockImages.php:53 | `(i / count) * 100` is 100 iff `i == count` |
| MockImages.JobProgressIncreasing | app/Jobs/GenerateMockImages.php:53-65 | the broadcast percentages strictly increase |
| MockImages.JobProgressFullOnlyLast | app/Jobs/GenerateMockImages.php:53-65 | an event with progress 100 implies attempt `count` survived |
| MockImages.JobProgressFullWhenLast | app/Jobs/GenerateMockImages.php:53-65 | when attempt `count` survives, some event carries progress 100 |
| MockImages.JobProgressReachesFull | app/Jobs/GenerateMockImages.php:53-65 | progress 100 is broadcast iff attempt `count` survived |
| MockImages.LoopWritesNoRows | app/Jobs/GenerateMockImages.php:33-76 | the loop itself issues no insert and no create |
| MockImages.JobInsertsOnce | app/Jobs/GenerateMockImages.php:78-87 | the table gets at most one insert, with the whole batch, only when the batch is non-empty, as the job's last effect; otherwise the last effect is the warning; no create |
| MockImages.JobWithNoAttempts | app/Jobs/GenerateMockImages.php:33-87 | with `count <= 0` the batch is empty and the only effect is the warning |
| MockImages.JobChannels | app/Jobs/GenerateMockImages.php:55-65 | every event of the job goes out as `image.generated` on the public channel `images.2` |
| MockImages.BatchBacked | app/Jobs/GenerateMockImages.php:48-62 | every batch row has the url of a path the loop stored |
| MockImages.JobStoresBeforeRecording | app/Jobs/GenerateMockImages.php:47-79 | store-then-record holds for the job's whole trace (on a disk whose `put` throws on failure) |
| ProgressEvents.EventHoldsData | app/Events/ImageGenerationProgress.php:20-22 | the event holds its constructor argument unchanged as `imageData`, and two events are equal iff their arguments are |
| ProgressEvents.BroadcastOn | app/Events/ImageGenerationProgress.php:29-34 | the channel is public and named `images.` followed by the payload's user id, and the user id can be read back from the name |
| ProgressEvents.ChannelUserRoundTrip | app/Events/ImageGenerationProgress.php:32 | reading a channel name back gives the user id it was built from, including an absent id |
| ProgressEvents.ChannelsSeparateUsers | app/Events/ImageGenerationProgress.php:32 | events of different users never share a channel |
| ProgressEvents.EventNameFixed | app/Events/ImageGenerationProgress.php:36-39 | the event name is `image.generated` whatever the payload |
| Text.NatToString | app/Events/ImageGenerationProgress.php:32 | a user id's decimal text is non-empty and all digits |
| Text.DigitsRoundTrip | app/Events/ImageGenerationProgress.php:32 | reading a number's decimal text gives the number back |
| Text.NatToStringInjective | app/Events/ImageGenerationProgress.php:32 | different numbers have different decimal texts |
| Text.StrPos | app/Http/Controllers/ImageController.php:114 | `strpos` finds the needle iff it occurs, and the index it answers is an occurrence |
| Text.StrPosFrom | app/Http/Controllers/ImageController.php:114 | the search from `from` answers the first occurrence at or after `from`, or none |
| Text.ContainsEmbedded | app/Http/Controllers/ImageController.php:114 | a message that embeds the billing phrase anywhere contains it |
| ImageController.FailedRuleMatchesRules | app/Http/Controllers/ImageController.php:20-22 | the first failing rule is absent iff the file is present, is an image, has an accepted extension and is at most 2048 KB |
| ImageController.Upload | app/Http/Controllers/ImageController.php:16-51 | `upload` always answers 201 or 500, always with a body |
| ImageController.UploadRejectsInvalid | app/Http/Controllers/ImageController.php:20-49 | a file that fails validation stores nothing, writes no row and answers 500 with `error = "Image upload failed."` |
| ImageController.UploadOutcome | app/Http/Controllers/ImageController.php:25-49 | 201 iff validation, the store and the create succeed; there is then one store and one created row (client file name, acting user, url of the stored path, sniffed MIME type), answered as `image`; otherwise 500 with the fixed error and no row |
| ImageController.UploadStoresBeforeRecording | app/Http/Controllers/ImageController.php:25-36 | the created row points at the bytes stored just before (on a disk whose store throws on failure) |
| ImageController.UploadThenList | app/Http/Controllers/ImageController.php:31-36 | a successful upload appends one listing entry with the client's file name and the stored url; a failed one leaves the table unchanged |
| ImageController.GenerateImageVariations | app/Http/Controllers/ImageController.php:53-136 | the action's loop, early throws, insert and catch produce exactly the answer and trace of `GenerateVariations` |
| ImageController.FirstFailure | app/Http/Controllers/ImageController.php:72-79 | the index of the first variation whose download or store fails: every earlier one succeeds, the one there fails |
| ImageController.StoreAllRows | app/Http/Controllers/ImageController.php:72-98 | the `foreach` gathers the records of exactly the variations before the first failure |
| ImageController.StoreAllTrace | app/Http/Controllers/ImageController.php:72-98 | the `foreach` stores exactly the variations before the first failure, in order |
| ImageController.StoreAllFailure | app/Http/Controllers/ImageController.php:76-86 | the `foreach` ends with the exception of the first failing variation, or none |
| ImageController.TryGenerateOutcome | app/Http/Controllers/ImageController.php:72-101 | the `try` block gathers the records before the first failure, and ends without an exception iff every variation was stored and the insert, if issued, succeeded |
| ImageController.TryGenerateFailure | app/Http/Controllers/ImageController.php:76-101 | the exception that ends the `try` block is the first failing variation's, else the insert's |
| ImageController.TryGenerateEffect | app/Http/Controllers/ImageController.php:64-101 | the `try` block requests once, stores the variations before the first failure, then inserts only when all `k > 0` were stored and the insert goes through |
| ImageController.GeneratedRowsAt | app/Http/Controllers/ImageController.php:82-97 | record `j` is `generated_<uid>.png`, owned by the acting user, `image/png`, with the url of `images/generated/<filename>` |
| ImageController.VariationWrites | app/Http/Controllers/ImageController.php:64-101 | after a successful lookup and API call: the stored paths are those before the first failure; one insert of all records iff all `k > 0` were stored and the insert succeeded; no create; one API request for `n = 5`, `1024x1024`, prompted with the source url |
| ImageController.VariationOutcome | app/Http/Controllers/ImageController.php:104-134 | the answer is 200 with the stored urls when nothing failed; on an exception it is 200 with empty `variations` and the fallback message iff the message contains the billing phrase, else 500 with `success = false` and the message; the five-image job is queued iff the billing phrase occurs |
| ImageController.VariationsSucceed | app/Http/Controllers/ImageController.php:72-108 | when nothing fails: 200, `success = true`, the fixed message, and one url per returned variation in order, each that variation's stored url |
| ImageController.VariationsSucceedWrites | app/Http/Controllers/ImageController.php:72-101 | when nothing fails: every variation is stored, all records go in one insert (none for an empty API answer), no job is queued |
| ImageController.VariationFailureWritesNothing | app/Http/Controllers/ImageController.php:76-101 | a failing variation means no insert and no create, at most the earlier variations stored, and a 500 or fallback answer |
| ImageController.LookupOrApiFailure | app/Http/Controllers/ImageController.php:55-134 | a failed lookup or API call stores nothing and writes no row; the API is requested only after a successful lookup; the billing phrase alone decides the 200 fallback plus one job of 5, else 500 |
| ImageController.BillingErrorQueuesMockImages | app/Http/Controllers/ImageController.php:114-123 | an API error that embeds the billing phrase queues one job of five images and answers 200 with empty `variations` |
| ImageController.VariationsStoreBeforeRecording | app/Http/Controllers/ImageController.php:53-136 | store-then-record holds for every trace of the action (on a disk whose `put` throws on failure) |
| ImageController.GeneratedStoreBeforeRecording | app/Http/Controllers/ImageController.php:84-101 | after a successful lookup and API call, the inserted records point at bytes stored earlier in the request (on a disk whose `put` throws on failure) |
| ImageController.FailedGenerationKeepsTable | app/Http/Controllers/ImageController.php:101 | any failure of the action leaves the table as it was |
| ImageController.GenerationThenList | app/Http/Controllers/ImageController.php:92-101 | a generation in which nothing fails appends one listing entry per variation, in order, with its generated name and stored url |
| ImageController.GetUserImages | app/Http/Controllers/ImageController.php:138-145 | 200 with `images` holding one entry per row, in table order, with exactly `id`, `filename` and `url`, whoever owns the row |
| ImageController.ListedRows | app/Http/Controllers/ImageController.php:141-144 | the listing has one entry per row and entry `j` is row `j`'s id, filename and url |
| ImageController.ListingGrows | app/Http/Controllers/ImageController.php:141-144 | after rows are added the listing keeps its old entries as a prefix and appends one entry per new row, with the ids the table gave them |
| AddUserRole.RoleOf | app/Http/Middleware/AddUserRole.php:23 | the role is `admin` iff the user holds `admin`, else `user` |
| AddUserRole.Handle | app/Http/Middleware/AddUserRole.php:16-34 | a non-200 answer or one without a user passes through unchanged; the status is never changed; with both, it succeeds iff the decoded content can take a key |
| AddUserRole.HandleObject | app/Http/Middleware/AddUserRole.php:26-30 | on a JSON object: `role` is set (overwriting any old value), every other member is written back as PHP re-encodes it, no member is added besides `role` |
| AddUserRole.HandleNestedEmptyObject | app/Http/Middleware/AddUserRole.php:26-30 | `{"a":{}}` is answered with `{"a":[],"role":…}`: the nested empty object comes back as a list |
| AddUserRole.HandleNull | app/Http/Middleware/AddUserRole.php:26-27 | content that decodes to `null` becomes the object holding only `role` |
| AddUserRole.HandleList | app/Http/Middleware/AddUserRole.php:26-30 | a JSON list becomes an object keyed by its indices, each holding its element as PHP re-encodes it, plus `role` |
| AddUserRole.ReencodeObject | app/Http/Middleware/AddUserRole.php:26-30 | a decoded object comes back as a list in index order when its keys are exactly `0..n-1`, else as an object on the same keys with its members re-encoded |
| AddUserRole.EmptyObjectBecomesList | app/Http/Middleware/AddUserRole.php:26-30 | the empty object comes back as the empty list |
| AddUserRole.NoListLikeObjectKept | app/Http/Middleware/AddUserRole.php:26-30 | a value in which no object has a list's keys comes back unchanged |
| AddUserRole.ReencodeIdempotent | app/Http/Middleware/AddUserRole.php:26-30 | re-encoding what PHP wrote back gives the same value |
| AddUserRole.IndexKeysHold | app/Http/Middleware/AddUserRole.php:26 | each index of a decoded list is a key holding that element |
| AddUserRole.IndexKeysOnly | app/Http/Middleware/AddUserRole.php:26 | every key of a decoded list is the text of one of its indices |
| AddUserRole.HandleScalar | app/Http/Middleware/AddUserRole.php:27 | a number, a string or `true` cannot take a key: the middleware throws |
| AddUserRole.HandleIdempotent | app/Http/Middleware/AddUserRole.php:26-30 | applying the middleware to its own answer changes nothing: the role is the same and the re-encoded members come back as they are |

## Left out

- The outside world is made of parameters. Storage, the generation API, the
  HTTP fetches, the controller's database calls, `uniqid()` and `rand(1,10)`
  are inputs of the actions, so the placeholder url of the job does not
  appear.
- `sleep(5)`, the broadcast transport and the queue worker are left out. A
  broadcast and a dispatch are trace entries.
- Log lines keep their message only. The context arrays are left out.
- The two `Log::debug` lines of `ImageGenerationProgress`, in its constructor
  and in `broadcastOn`, are not modelled. A `Broadcast` entry stands for the
  whole event, and traces keep only the error and warning lines.
- Progress is the pair `(i, count)` and `Percent` is an exact rational.
  IEEE float rounding is not modelled.
- Validation:
  - "is an image", the sniffed MIME type, the guessed extension and the size
    are abstract inputs;
  - `mimes:jpg,png` accepts `jpeg` as the framework does;
  - the validation message is reduced to the rule name.
- The `file` and `line` members of the upload error body, and the rows'
  timestamps, are left out.
- `MockImages.GenerateMockImages.Handle`: an attempt's `stored` flag covers an
  exception from `put`. A `put` that reports failure by returning `false`
  counts as stored, as in the code. So a `Put` entry means that `put` was
  called, and `MockImages.JobStoresBeforeRecording` holds only for a disk
  whose `put` throws on failure. Exceptions from `Storage::url` and
  `event()` after the row joined the batch are not modelled.
- `MockImages.GenerateMockImages.Handle`: the final `Image::insert` is taken to
  succeed. An insert that throws ends the job with an uncaught exception, but
  the model's trace still records the insert as done.
- `ImageController.GenerateImageVariations`: the API key lookup and the
  client creation are taken to succeed. Their failures are not modelled: the
  model's API-error path always records the generation request. An exception
  from client creation never makes that request. An unset key raises a PHP
  `TypeError`, which the `\Exception` catch does not catch, so no JSON
  failure body is sent.
- `ImageController.GenerateImageVariations`: a variation's `put` fails only by
  throwing. On a disk configured not to throw, `put` returns `false`; the code
  ignores that result and the row is still inserted with no bytes behind it.
  `ImageController.VariationsStoreBeforeRecording` and
  `ImageController.GeneratedStoreBeforeRecording` hold only for a disk that
  throws.
- `ImageController.Upload`: the store fails only by throwing. On a disk
  configured not to throw, `store` returns `false`; the code then builds the
  url from it, creates the row and answers 201. `ImageController.UploadOutcome`
  ("201 iff the store succeeds") and
  `ImageController.UploadStoresBeforeRecording` hold only for a disk that
  throws.
- `ImageController.Upload`: the response id is the `created` input. `Persist`
  instead numbers new rows from the table size plus one, which assumes gap-free
  auto-increment ids.
- `AddUserRole.Handle`:
  - the message of the scalar-key exception is a fixed string;
  - JSON floats are not modelled;
  - a failing `json_encode` is not modelled;
  - JSON objects are maps, so member order is not modelled. `Reencode` turns
    every nested object keyed exactly `0..n-1` into a list. PHP does that only
    when the members come in ascending key order; otherwise it writes an
    object back;
  - the nesting-depth limit of `json_decode` is not modelled;
  - integers outside PHP's 64-bit range are not modelled. `json_decode` turns
    them into floats, and `json_encode` writes those in float notation:
    `{"n":12345678901234567890}` comes back as `{"n":1.2345678901234567e+19,…}`.
    `Reencode` keeps them as integers.
- `AddUserRole.HandleObject`: matches the source only when every integer in
  the content fits in 64 bits.
- `AddUserRole.HandleList`: matches the source only when every integer in the
  content fits in 64 bits.
- `AddUserRole.NoListLikeObjectKept`: matches the source only for values whose
  integers all fit in 64 bits.
- `ProgressEvents.BroadcastAs` carries no ensures of its own.
  `ProgressEvents.EventNameFixed` states its value.
- `ImageController.GetUserImages` returns no trace, because it writes nothing.
  Two calls on the same table are equal because it is a function, so no lemma
  restates this.
- The seeders, the route file and the `Image` model declaration are not part
  of this model. The model's four fillable columns are `ImageRow`.
