# Image compressor service — a verified model

The service accepts a CSV upload of products with image URLs, validates it,
stores it in S3 under a fresh request id and records the status
`Processing Pending` in a DynamoDB table. A background job then:

- downloads every image;
- re-encodes it (JPEG with the configured quality, PNG with a compression
  level derived from it, any other format as it is);
- stores each image under a key made from a new UUID;
- appends the public URLs of the stored images to each row;
- stores the enriched CSV in place of the original;
- records the job's progress and outcome in the table.

A status endpoint reads the table.

The model, one module per concern:

- `Text`: the Python string operations the service relies on.
  - `str.isspace`, which is also the regex class `\s`;
  - `split(',')`, where `"".split(',')` is `[""]`;
  - `replace("-", "")`;
  - `strip()`;
  - ASCII lower-casing.
- `ImageUrls`: the image-URL regular expression. It is written as a parser
  into the pieces the pattern consumes, plus a renderer, and the two are
  proved to agree: a URL matches exactly when it renders a well-formed set of
  pieces. Python's `$` also matches before one final newline, and the model
  keeps that.
- `Validation`: `validate_csv` over already-parsed rows, and
  `is_alphanumeric_with_spaces`. The validator reports the first violation in
  the code's order:
  1. fewer than two rows;
  2. a header that differs from the configured one;
  3. then, row by row: too few fields, too many fields (the unpack
     `ValueError`), a non-digit serial number, a bad product name, a bad URL
     list.
- `Ids`: `str(uuid.uuid4()).replace("-", "")`. The result is 32 lower-case
  hex characters, and different UUIDs give different ids.
- `Compression`: the encoder choice of `compress_image` and the key, content
  type and public URL of `upload_image_to_s3`.
- `Documents`: stored CSV documents.
  - A field is a string, or a list of strings. The appended URL column and the
    double-wrapped header `[[headers]]` are lists.
  - The header of the result is therefore one field holding the whole
    extended header list.
  - Data row i of the result is input row i followed by its list of output
    URLs.
- `World`: the status strings, the texts of the exceptions, the stored
  values, the configuration, the outside calls and the log of side effects.
  - Every outside call is an oracle, a fixed function of its arguments. This
    covers S3, DynamoDB, `requests.get`, PIL's open/save and `uuid4`.
  - An oracle either returns the exception text of the call or succeeds.
  - `str()` of an `HTTPException` is `"<code>: <detail>"`. The failure status
    of a job embeds it, as the code does.
- `Jobs`: what the background job does, computed from the configuration, the
  oracles and the uuid draw counter alone.
  - `ImageRun` is one `compress_image` call.
  - `Sequence` is a Python loop that calls a step on each element in order
    and leaves at the first exception. `CompressRun` (the list comprehension
    over a row's URLs) and `RowsRun` (the row loop) are instances of it.
  - `BodyRun` is the `try` block of `process_file`.
  - The lemmas say when each of these succeeds, which exception text ends
    it, and which image each output URL names.
- `Service`: a class `Backend` whose fields are the status table, the CSV
  bucket, the image bucket, the uuid draw counter and the list of scheduled
  jobs, plus a ghost log of side effects in order. Its methods are the
  storage helpers, `compress_image`, the row loop of `process_file`,
  `process_file` itself and `upload_csv`. Each job method is proved to return
  what its `Jobs` run computes. Its uuid draws and its log (image uploads,
  document uploads and status writes, in order) are proved to be exactly
  those `PublishEffects`, `StartedEffects`, `BodyEffects` and `JobEffects`
  compute.

Behaviours kept as the code has them:

- An unknown request id gives a 500 from `read_from_db`, because its own 404
  is caught by the surrounding `except Exception`.
- A file whose size equals the limit is accepted.
- A row with more than three fields gives a 500, not a 400.
- The job splits the third field on commas without stripping, while the
  validator strips each piece. `Validation.PaddedPieceAccepted` shows that a
  row with `", "` between URLs is valid. `Validation.PaddedPieceRejected`
  shows that the piece the job then hands to `compress_image` starts with a
  space, so it is not a string the validator's pattern accepts. What
  `requests.get` does with such a string is up to its oracle.
- With quality 100 the PNG compression level is 10, past zlib's 0-9 scale.
- A job's failure status names the exception that left the `try` block:
  `IndexError`'s text for a short row, the text of the first image that
  failed, `StopIteration`'s empty text for an empty document, or the 500 of a
  failed write.

## Model

| member | source | states |
|---|---|---|
| Text.Split | main.py:253 | `str.split` with a one-character separator: at least one piece, and no piece contains the separator |
| Text.JoinSplit | main.py:253 | joining the pieces of a split with the separator gives back the string |
| Text.SplitJoin | main.py:121 | splitting a join of separator-free pieces gives back the pieces, so split pieces are recovered exactly |
| Text.Remove | main.py:190 | `replace(c, "")` leaves no `c` and never lengthens the string |
| Text.RemoveAppend | main.py:86 | removing a character distributes over concatenation |
| Text.RemoveAbsent | main.py:86 | removing an absent character changes nothing |
| Text.LowerChar | main.py:169 | lower-casing leaves no upper-case ASCII letter and yields a lower-case letter exactly for letters |
| Text.LowerIdempotent | main.py:169 | lower-casing an already lower-cased format changes nothing |
| Text.LowerFixed | main.py:169 | `lower()` leaves a string as it is exactly when it has no upper-case ASCII letter |
| Text.TrimStart | main.py:254 | `lstrip()`: a suffix whose removed prefix is all whitespace and which does not start with whitespace |
| Text.TrimEnd | main.py:254 | `rstrip()`: a prefix whose removed suffix is all whitespace and which does not end with whitespace |
| Text.Strip | main.py:254 | `strip()` neither starts nor ends with whitespace |
| Text.StripSlice | main.py:254 | `strip()` keeps one contiguous slice and removes only whitespace on both sides |
| Text.StripUnchanged | main.py:254 | a string without whitespace at either end is its own `strip()` |
| Text.SplitPair | main.py:121 | two separator-free strings joined by the separator split into exactly those two strings |
| Text.StripPadded | main.py:254 | `strip()` removes one leading space from a string with no whitespace at either end, and nothing else |
| Ids.IdOf | main.py:190 | the request id of a UUID is 32 lower-case hex characters and is the UUID without hyphens |
| Ids.HexGroup | main.py:190 | a hyphen-free group of a canonical UUID is unchanged by hyphen removal and is hex |
| Ids.HyphenJoin | main.py:86 | removing hyphens from two groups joined by a hyphen concatenates the groups |
| Ids.CompactIsHexId | main.py:190 | a canonical UUID without hyphens is a 32-hex-character id: its five groups, concatenated |
| Ids.CompactInjective | main.py:86 | different UUIDs give different ids |
| ImageUrls.SchemeLength | main.py:266 | the scheme match is `http` or `https` in any case, followed by `://` |
| ImageUrls.ExtensionLength | main.py:266 | the extension match is a dot and `jpg`, `jpeg`, `png` or `gif` in any case at the end |
| ImageUrls.ParseExactWellFormed | main.py:266 | every piece the exact parser (`ParseExact`) cuts out has the shape its part of the pattern demands, and no final newline is recorded |
| ImageUrls.ParseExactSound | main.py:266 | a `ParseExact` result for a URL without a final newline is well-formed and renders back to the URL |
| ImageUrls.ParseSound | main.py:264-267 | every URL the pattern accepts (`Parse`) is a well-formed rendering of its parse |
| ImageUrls.SchemeLengthOfRender | main.py:266 | a rendered URL's scheme is recognised with its own length |
| ImageUrls.ExtensionLengthOfBody | main.py:266 | a rendered URL's extension is recognised with its own length |
| ImageUrls.ExtensionHasNoSpace | main.py:266 | an image extension contains no whitespace |
| ImageUrls.BodyHasNoSpace | main.py:266 | a whitespace-free tail, a dot and an extension contain no whitespace |
| ImageUrls.ParseExactComplete | main.py:266 | every well-formed set of pieces without final newline is recovered by `ParseExact` from its rendering |
| ImageUrls.NoExactMatchBeforeNewline | main.py:266 | a string ending in a newline never matches the pattern up to the end |
| ImageUrls.ParseComplete | main.py:264-267 | every well-formed set of pieces, with or without the final newline `$` allows, is accepted by `Parse` and parsed back |
| ImageUrls.ValidIffRendered | main.py:264-267 | `is_valid_image_url(u)` (`IsValidImageUrl`) holds exactly when `u` is the rendering of well-formed pieces |
| ImageUrls.TwoCharacterHostAccepted | main.py:266 | a scheme, `://`, a host-start character, any character but a newline (a space included), a dot and an extension are accepted, as `http://ab.jpg` and `HTTPS://a .PNG` are |
| ImageUrls.CaseIgnored | main.py:266 | `http` and `HTTPS` are schemes, `jpg` and `PNG` are extensions: case is ignored |
| ImageUrls.OneCharacterHostRejected | main.py:266 | `http://a.jpg` is rejected |
| ImageUrls.NoLeadingSpace | main.py:266 | an accepted URL is non-empty and does not start with whitespace |
| Validation.NameCharsIff | main.py:259-262 | `is_alphanumeric_with_spaces(s)` holds exactly when every character is a letter, a digit or a space, except that the last may be a newline; the empty name passes |
| Validation.AllValidUrlsIff | main.py:253-254 | `all(...)` over the split pieces holds exactly when every stripped piece is a valid image URL |
| Validation.CheckRow | main.py:239-255 | the row's checks in order: each error is reported exactly when the earlier checks pass and its own fails; no error exactly when the row is valid; the error carries the serial number |
| Validation.ValidateRows | main.py:238-255 | the row loop fails only with a row error |
| Validation.ValidateCsv | main.py:225-236 | "CSV file is empty" exactly for at most one row; with two or more rows the header error exactly when the first row differs from the configured headers |
| Validation.ValidateRowsPassIff | main.py:238-255 | the rows pass exactly when every row is valid |
| Validation.FirstOffendingRowDecides | main.py:238-255 | the first invalid row decides the outcome, with that row's error |
| Validation.LaterRowsNotExamined | main.py:238-255 | rows after the first invalid one do not affect the outcome |
| Validation.ValidateCsvPassIff | main.py:225-257 | a file passes exactly when it has at least two rows, the configured header and only valid data rows |
| Validation.AcceptedRowsHaveThreeFields | main.py:239-242 | every data row of an accepted file has exactly three fields |
| Validation.PaddedPieces | main.py:121 | two comma-free URLs joined by `", "` split into the first URL and the second with a leading space |
| Validation.PaddedPieceAccepted | main.py:239-255 | validation strips each piece: a row of a digit serial number, a valid name and two valid URLs joined by `", "` is valid |
| Validation.PaddedPieceRejected | main.py:121-122 | a piece that starts with a space, as the unstripped split hands to `compress_image`, is not a string the validator's pattern accepts |
| Compression.PngCompressLevel | main.py:163 | `quality // 10` is the floor of a tenth of the quality |
| Compression.PngLevelScale | main.py:162-163 | qualities 0-99 give PNG levels 0-9; quality 50 gives 5 and quality 100 gives 10 |
| Compression.SaveOptionsFor | main.py:159-166 | JPEG/JPG is saved as JPEG with the quality, PNG with level `quality // 10`, any other format in its own format |
| Compression.ImageKey | main.py:86 | the image key is the 32-hex id, a dot and the lower-cased format, and the id is recovered from the key |
| Compression.ContentTypeMatchesKey | main.py:86-88 | the Content-Type `image/<ext>` names the same extension as the key the image is stored under |
| Compression.ImageKeysDistinct | main.py:86 | images with different ids never share a key |
| Compression.PublicUrlsDistinct | main.py:93 | different keys give different public URLs |
| Documents.ReadBackPlain | main.py:113-115 | reading back an uploaded document gives the uploaded rows |
| Documents.EnrichedRowsAt | main.py:119-124 | the appended rows are, in order, each input row followed by its output list |
| Documents.EnrichedDocShape | main.py:115-124 | the result (`EnrichedDoc`) has one more row than there are data rows; its header is one field; data row i is input row i with one more field, its output list |
| Documents.EnrichedHeaderIsOneField | main.py:118-130 | written and read back, the result's header row is a single field holding the whole header list |
| Documents.EnrichedRowsSnoc | main.py:123-124 | one loop step appends the enriched row of the next input row |
| World.NotFoundText | main.py:65-67 | the 500 for an unknown id reads `Exception occurred: 404: requestId: <id> not found!` |
| World.CsvKeyInjective | main.py:70 | different requests never share a document key `<id>.csv` |
| World.StatusFailedDistinct | main.py:137-146 | a failure status is none of the pending, in-progress and completed statuses, and different reasons give different failure statuses |
| World.ReasonOfStatus | main.py:146 | the reason is recovered from a failure status between its fixed prefix and the final `!` |
| World.StoreImagesAppend | main.py:92 | the image bucket after two runs of uploads is the second applied to the result of the first |
| World.LoggedKeyStored | main.py:92 | an image once uploaded keeps its key in the bucket whatever is uploaded later |
| Jobs.ImageRunFacts | main.py:151-169 | a failed fetch or decode ends `compress_image` with its own text; an image that gets past the encoder was decoded and encoded; an uploaded image was fetched from the URL, encoded as its format calls for, and stored under a key of the drawn UUID whose extension its Content-Type names |
| Jobs.Sequence | main.py:122 | a loop that completes has one result per element |
| Jobs.SequenceStops | main.py:122 | once a prefix has raised, the later elements are never tried |
| Jobs.SequenceOk | main.py:122 | a loop completes exactly when every call, made after the ones before it, succeeds |
| Jobs.SequenceValues | main.py:122 | result i of a completed loop is what call i returned, and call i's uploads follow those of the calls before it in the log |
| Jobs.SequenceFirstFailure | main.py:122 | the first call that raises ends the loop with its own exception text |
| Jobs.SequenceUnitDraws | main.py:122 | when each successful call draws one uuid, call i draws number `draw + i`, and the loop completes exactly when each of those calls does |
| Jobs.SequenceOnlyImages | main.py:119-124 | a loop of calls that only upload images only uploads images |
| Jobs.ImageStepOk | main.py:151-169 | a `compress_image` call returns a URL exactly when its image is uploaded, and then it has drawn one uuid |
| Jobs.CompressRunOk | main.py:122 | the list for a row completes exactly when every image is uploaded, image j with draw `draw + j`, and then one uuid per URL was drawn |
| Jobs.CompressRunOutputs | main.py:121-122 | output URL j is the public URL of the image fetched from piece j, and that upload is in the log |
| Jobs.CompressRunFirstFailure | main.py:122 | the first image that is not uploaded ends the list with its exception text |
| Jobs.RowsRunOk | main.py:119-124 | the row loop completes exactly when every row has a third field and its list completes |
| Jobs.RowsRunOutputs | main.py:119-124 | output list i has one URL per comma-split piece of row i's third field, and URL j is the public URL of an uploaded image fetched from piece j, logged by the loop |
| Jobs.RowsRunShortRow | main.py:121 | a row with fewer than three fields, after the rows before it completed, ends the loop with `IndexError`'s text |
| Jobs.RowsRunImageFailure | main.py:122 | a row whose list raises, after the rows before it completed, ends the loop with that list's text |
| Jobs.RowsRunOnlyImages | main.py:119-124 | the row loop uploads images and writes nothing else |
| Jobs.SequenceDraws | main.py:122 | a loop of calls that never give back a uuid draw never gives one back |
| Jobs.DocRunDraws | main.py:113-124 | the row loop never gives back a uuid draw |
| Jobs.DocRun | main.py:113-124 | a document read back needs a header line (`StopIteration` otherwise); a completed loop has one output list per data row, and only uploads images |
| Jobs.PublishCompletes | main.py:115-142 | once the row loop completes, the job ends normally when the upload of the result and the completed status succeed, with the loop's outputs |
| Jobs.TailStatuses | main.py:134-142 | after the loop, the completed status is written exactly when the upload of the result and that write succeed, and no other status is |
| Jobs.PublishStatuses | main.py:115-142 | the statuses the job writes after reading the document back: completed exactly when `PublishRun` ends normally, none otherwise |
| Jobs.StartedStatuses | main.py:113-142 | the same from the read onwards: a failed read writes no status |
| Jobs.BodyStatuses | main.py:106-142 | the statuses of the `try` block: in progress once that write succeeds, then completed exactly when `BodyRun` ends normally |
| Jobs.JobStatuses | main.py:104-149 | the statuses of `process_file`: in progress once that write succeeds, then completed, or else the failure status naming `BodyRun`'s exception when that write succeeds, and nothing more |
| Jobs.JobOwnEffects | main.py:104-149 | a job writes only statuses of its own id, stores only its own `<id>.csv` and images, and never gives back a uuid draw |
| Jobs.JobCompletes | main.py:104-142 | when every outside call succeeds, a document whose data rows all have a third field is processed to the end |
| Jobs.ShortRowFailsJob | main.py:119-146 | the first short data row makes the job raise `IndexError`'s text, with the result not uploaded |
| Jobs.ImageFailureFailsJob | main.py:119-146 | the first data row whose images fail makes the job raise that list's exception text, with the result not uploaded |
| Service.RejectionCode | main.py:185-188 | validator errors are 400; the unpack `ValueError` becomes a 500 |
| Service.Screen | main.py:174-188 | the checks of `upload_csv` in order: wrong content type, then size above the limit, then the validator's error; none fails exactly when all three pass |
| Service.Backend.ScheduledJobFound | main.py:193-203 | a scheduled job's document is found unless the read itself fails, and its status unless the lookup itself fails |
| Service.Backend.UploadServed | main.py:92 | every logged image upload is in the image bucket |
| Service.Backend.NewId | main.py:190 | draws the next UUID and returns its 32-hex id |
| Service.Backend.WriteToDb | main.py:47-51 | a successful write sets the status; a failed one changes nothing and raises a 500 with the DB error text |
| Service.Backend.ReadFromDb | main.py:53-67 | a stored id gives its item; any failure is a 500; an unknown id gives the 500 that wraps the 404 "not found" |
| Service.Backend.UploadToS3 | main.py:69-83 | a successful upload stores the document under `<id>.csv`; a failed one changes nothing and raises a 500 with the S3 error text |
| Service.Backend.ReadFromS3 | main.py:97-102 | the document under `<id>.csv`, or the missing-key error, or the S3 error |
| Service.Backend.UploadImageToS3 | main.py:85-95 | stores the image under a fresh key with content type `image/<ext>` and returns its public URL; on failure the 500's text and no change |
| Service.Backend.CompressImage | main.py:151-169 | returns what `ImageRun` decides: the fetch, decode or encode error, the upload's 500 text, or the public URL of the image stored under a key of the drawn UUID; draws and logs exactly that call's uuid and upload; a returned URL names a stored image fetched from the URL |
| Service.Backend.CompressAll | main.py:122 | returns, draws and logs exactly what `CompressRun` does: one URL per piece in order, each the image fetched from that piece, or the first image's exception text |
| Service.Backend.EnrichDocument | main.py:115-124 | agrees with `DocRun`: `StopIteration` for an empty document, `IndexError` for the first short row, the first failing image's text, otherwise the enriched document whose output lists are the loop's |
| Service.Backend.EnrichAndPublish | main.py:115-142 | returns what `PublishRun` decides; on success the enriched document replaces `<id>.csv` and the status becomes completed; a failure before the upload leaves the bucket and the table; a failed completed-status write after the upload leaves the new document; draws and logs exactly what `PublishEffects` computes: the loop's uploads, then the result's upload and the completed status as far as they succeed |
| Service.Backend.EnrichRow | main.py:119-122 | one pass of the row loop: `IndexError`'s text for a short row, the list's exception, or the row's URLs; the loop's result, draws and log after this row are those `RowsRun` computes, and an exception ends `RowsRun` over all rows the same way |
| Service.Backend.PublishEnriched | main.py:127-142 | after a completed loop, the job ends as `PublishRun` decides and logs the loop's uploads then `PublishTail`; on success the enriched document replaces `<id>.csv` and the status becomes completed |
| Service.Backend.PublishResult | main.py:134-142 | ends as `PublishEnd` decides and logs exactly `PublishTail`: a failed upload raises its 500 text and changes nothing; otherwise the result replaces `<id>.csv`, and a failed completed-status write raises its 500 text with the outputs already stored and the table unchanged |
| Service.Backend.ProcessStarted | main.py:113-142 | returns what `StartedRun` decides from the document read back; on success the stored result and the completed status; on an exception before the upload the bucket and table are unchanged; draws and logs exactly what `StartedEffects` computes |
| Service.Backend.ProcessBody | main.py:106-142 | returns what `BodyRun` decides; the in-progress status first, and a failure of that write ends the body with its 500 text and no change; on success the result is stored and the statuses written are in-progress then completed; draws and logs exactly what `BodyEffects` computes: the in-progress write, then the rest of the job |
| Service.Backend.RecordFailure | main.py:143-149 | the status becomes "Processing failed due to <reason>!"; if that write fails its 500 leaves the task and nothing changes |
| Service.Backend.ProcessFile | main.py:104-149 | the job completes exactly when `BodyRun` ends normally, with its outputs; otherwise it fails with `BodyRun`'s exception text, its last status is "Processing failed due to <reason>!" unless that write fails too, and the bucket is unchanged unless the result was already stored; draws and logs exactly what `JobEffects` computes, the failure status included when it is written |
| Service.Backend.UploadCsv | main.py:171-205 | a rejected upload changes nothing; an accepted one stores the file, writes `Processing Pending` and schedules the job, in that order; the returned id is 32 hex characters and its status reads back as pending |
| Service.Backend.Admit | main.py:190-205 | the steps after the checks: a fresh 32-hex id, then `Enqueue` under it; an accepted id's document reads back as uploaded and its status is pending |
| Service.Backend.Enqueue | main.py:193-205 | store, pending status, schedule, in that order; a failed upload changes nothing; a failed status write keeps the stored document and schedules nothing |
| Service.Backend.Schedule | main.py:203 | the job is added to the scheduled tasks, and only a job with a stored document and a status record is |

## Left out

- FastAPI routing, `UploadFile`, `StreamingResponse` and the response
  objects: requests and responses are small datatypes. `get_status`
  (main.py:207-209) only returns `read_from_db`.
- `get_csv` (main.py:211-223) is not part of this model. It streams a stored
  document and does not change state.
- The CSV dialect is not modelled: files are already-parsed rows.
  - The byte size of an upload is a separate parameter of `UploadCsv`, not
    derived from the rows.
  - A UTF-8 decode error or a `csv.Error` while reading is not modelled. It
    would be a 500 in `upload_csv` and a failure status in `process_file`.
- Documents.ListRepr: a stored URL list is read back as `['a', 'b']`. Python's
  `repr` would switch quote characters, or escape characters, for URLs that
  contain quotes or backslashes.
- Service.Backend.ReadFromS3: a missing `<id>.csv` is reported as
  `NoSuchKey` before any other failure of the read is considered; the
  `getCsvError` oracle only speaks for keys that exist.
- Service.Backend.UploadCsv: the 500 for a row with too many fields carries
  the validation error, not the text
  `CSV parsing failed with exception: too many values to unpack (expected 3)`.
- Validation.CheckRow: `str.isdigit` is modelled as the ASCII digits only.
  Python also accepts other Unicode digits, such as superscripts.
- ImageUrls.IsValidImageUrl: IGNORECASE is modelled for ASCII letters only.
  Python also matches `ſ` with `s`, `ı` and `İ` with `i`, and `K` (Kelvin)
  with `k`.
- The outside calls are oracles that are fixed functions of their
  arguments.
  - This covers S3, DynamoDB, `requests.get`, `raise_for_status`, PIL's
    `open` and `save`, and `uuid4`.
  - The same call fails the same way every time.
  - Image bytes and the actual compression are not modelled. A stored image
    records its content type, source URL and encoder options.
  - Whether `image.save` fails depends on the URL the image came from and on
    the encoder options. The URL stands for the image, whose bytes are not
    modelled.
- `BackgroundTasks` is modelled as a list of scheduled ids. `ProcessFile` is
  a separate call, so no interleaving of jobs and requests is modelled.
- The uuid oracle may repeat a UUID. A second upload under the same key then
  replaces the first image in the bucket, as S3 would. The output URLs are
  tied to the piece they came from through the log of uploads
  (Jobs.CompressRunOutputs, Jobs.RowsRunOutputs), which keeps both uploads.
- Jobs.RowsRunOutputs: names the uuid draw of image j of row i only as some
  draw. Jobs.CompressRunOutputs gives its number within the row's list.
- S3 metadata is kept as given (content type and original filename); how S3
  maps `Metadata` onto headers is not modelled.
- `print` logging and environment loading are left out. The configuration is
  a `Config` value.
