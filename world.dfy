/** The world the service runs in: the status strings it writes, the texts of
    the exceptions it raises, the values it stores, its configuration, the
    outside calls as oracles, and the log of side effects. */
module World {
  import opened Results
  import opened Ids
  import opened Compression
  import opened Documents

  // ---------------------------------------------------------------------------
  // Status strings written to the table

  const StatusPending := "Processing Pending"
  const StatusInProgress := "Processing in progress!"
  const StatusCompleted := "Processing completed successfully!"

  function StatusFailed(reason: string): string {
    "Processing failed due to " + reason + "!"
  }

  // ---------------------------------------------------------------------------
  // Exceptions and their texts

  /** A FastAPI `HTTPException`. */
  datatype HttpError = HttpError(code: nat, detail: string)

  function Decimal(n: nat): (s: string)
    ensures |s| >= 1
  {
    if n < 10 then [('0' as int + n) as char] else Decimal(n / 10) + [('0' as int + n % 10) as char]
  }

  lemma DecimalNotFound()
    ensures Decimal(404) == "404"
  {
    assert Decimal(4) == "4";
    assert Decimal(40) == "40";
  }

  /** The message `read_from_db` ends with for an unknown id. */
  lemma NotFoundText(id: string)
    ensures "Exception occurred: " + ExceptionText(HttpError(404, "requestId: " + id + " not found!"))
         == "Exception occurred: 404: requestId: " + id + " not found!"
  {
    DecimalNotFound();
  }

  /** `str(e)` of an `HTTPException`: the code, a colon and the detail. */
  function ExceptionText(e: HttpError): string {
    Decimal(e.code) + ": " + e.detail
  }

  /** The `HTTPException` of `write_to_db`. */
  function DbWriteError(e: string): HttpError {
    HttpError(500, "Error occurred while writing to DB: " + e)
  }

  /** The `HTTPException` of `upload_to_s3`. */
  function CsvUploadError(e: string): HttpError {
    HttpError(500, "Error occurred while writing file to S3: " + e)
  }

  /** The `HTTPException` of `upload_image_to_s3`. */
  function ImageUploadError(e: string): HttpError {
    HttpError(500, "Error occurred while uploading image to S3: " + e)
  }

  /** `str(e)` of the `ClientError` that `get_object` raises for a missing key. */
  const NoSuchKeyText := "An error occurred (NoSuchKey) when calling the GetObject operation: The specified key does not exist."

  /** `str(e)` of the `IndexError` of `row[2]` on a shorter row. */
  const IndexErrorText := "list index out of range"

  /** `str(e)` of the `StopIteration` of `next(csv_reader)` on an empty document. */
  const StopIterationText := ""

  // ---------------------------------------------------------------------------
  // Stored values and the outside world

  /** The S3 key of a request's CSV document. */
  function CsvKey(requestId: string): string {
    requestId + ".csv"
  }

  /** Different requests never share a document key. */
  lemma CsvKeyInjective(id1: string, id2: string)
    requires id1 != id2
    ensures CsvKey(id1) != CsvKey(id2)
  {
    IdOfCsvKey(id1);
    IdOfCsvKey(id2);
  }

  /** The request id is the key without its `.csv` suffix. */
  lemma IdOfCsvKey(id: string)
    ensures |CsvKey(id)| == |id| + 4 && CsvKey(id)[..|id|] == id
  {
  }

  /** A failure status is none of the other three and names its reason: two
      different reasons give two different statuses. */
  lemma StatusFailedDistinct(reason: string, other: string)
    ensures StatusFailed(reason) != StatusPending
    ensures StatusFailed(reason) != StatusInProgress
    ensures StatusFailed(reason) != StatusCompleted
    ensures reason != other ==> StatusFailed(reason) != StatusFailed(other)
  {
    assert StatusFailed(reason)[..12] == "Processing f";
    assert StatusPending[..12] == "Processing P";
    assert StatusInProgress[..12] == "Processing i";
    assert StatusCompleted[..12] == "Processing c";
    ReasonOfStatus(reason);
    ReasonOfStatus(other);
  }

  /** The reason is what lies between the fixed prefix and the final `!`. */
  lemma ReasonOfStatus(reason: string)
    ensures |StatusFailed(reason)| == |reason| + 26
    ensures StatusFailed(reason)[25..|StatusFailed(reason)| - 1] == reason
  {
  }

  /** A CSV document in the bucket with its metadata. */
  datatype CsvObject = CsvObject(doc: Doc, contentType: string, originalFilename: Option<string>)

  /** An image in the image bucket: its Content-Type, the URL it was fetched
      from and how it was re-encoded (the bytes themselves are not modelled). */
  datatype StoredImage = StoredImage(contentType: string, source: string, encoding: SaveOptions)

  /** `requests.get(url)`, `raise_for_status()` and `Image.open`: the detected
      format, or the text of the exception one of them raised. */
  datatype Opened = Decoded(format: string) | OpenFailed(reason: string)

  /** The environment configuration. */
  datatype Config = Config(
    validHeaders: seq<string>,
    maxFileSize: int,
    imageQuality: int,
    imageBucket: string,
    region: string)

  /** Everything outside the program. An error oracle returns the text of the
      exception its call raises, or `None` when the call succeeds. */
  datatype Oracles = Oracles(
    uuid: nat -> UuidText,                        // the n-th uuid.uuid4()
    openImage: string -> Opened,
    encodeError: (string, SaveOptions) -> Option<string>,  // image.save of the image fetched from a URL
    putItemError: (string, string) -> Option<string>,
    getItemError: string -> Option<string>,
    putCsvError: (string, CsvObject) -> Option<string>,
    getCsvError: string -> Option<string>,
    putImageError: (string, StoredImage) -> Option<string>)

  /** The side effects that took place, in order. */
  datatype Event =
    | StatusWritten(id: string, status: string)
    | CsvStored(key: string)
    | ImageStored(key: string, image: StoredImage)
    | TaskScheduled(id: string)

  /** The statuses written for `id`, in order. */
  ghost function Statuses(events: seq<Event>, id: string): seq<string> {
    if |events| == 0 then []
    else (if events[0].StatusWritten? && events[0].id == id then [events[0].status] else [])
         + Statuses(events[1..], id)
  }

  lemma {:induction false} StatusesAppend(a: seq<Event>, b: seq<Event>, id: string)
    ensures Statuses(a + b, id) == Statuses(a, id) + Statuses(b, id)
  {
    if |a| > 0 {
      assert (a + b)[1..] == a[1..] + b;
      StatusesAppend(a[1..], b, id);
    } else {
      assert a + b == b;
    }
  }

  /** The image bucket after the uploads of `log`, applied in order to
      `images`; events of other kinds leave it alone. */
  function StoreImages(images: map<string, StoredImage>, log: seq<Event>): map<string, StoredImage>
    decreases |log|
  {
    if |log| == 0 then images
    else
      var before := StoreImages(images, log[..|log| - 1]);
      match log[|log| - 1]
      case ImageStored(key, image) => before[key := image]
      case _ => before
  }

  lemma {:induction false} StoreImagesAppend(images: map<string, StoredImage>, a: seq<Event>, b: seq<Event>)
    ensures StoreImages(images, a + b) == StoreImages(StoreImages(images, a), b)
    decreases |b|
  {
    if |b| == 0 {
      assert a + b == a;
    } else {
      var n := |b| - 1;
      assert (a + b)[..|a + b| - 1] == a + b[..n];
      assert (a + b)[|a + b| - 1] == b[n];
      StoreImagesAppend(images, a, b[..n]);
    }
  }

  /** One more event: an upload stores its image under its key, any other
      event leaves the bucket alone. */
  lemma StoreImagesSnoc(images: map<string, StoredImage>, log: seq<Event>, e: Event)
    ensures StoreImages(images, log + [e]) ==
      if e.ImageStored? then StoreImages(images, log)[e.key := e.image] else StoreImages(images, log)
  {
    assert (log + [e])[..|log|] == log;
  }

  /** An image once uploaded stays in the bucket: later uploads may replace
      it under the same key but never remove the key. */
  lemma {:induction false} LoggedKeyStored(images: map<string, StoredImage>, log: seq<Event>, i: nat)
    requires i < |log| && log[i].ImageStored?
    ensures log[i].key in StoreImages(images, log)
    decreases |log|
  {
    var n := |log| - 1;
    if i < n {
      assert log[..n][i] == log[i];
      LoggedKeyStored(images, log[..n], i);
    }
  }

  ghost predicate OnlyImages(events: seq<Event>) {
    forall i :: 0 <= i < |events| ==> events[i].ImageStored?
  }

  lemma {:induction false} StatusesOfImages(events: seq<Event>, id: string)
    requires OnlyImages(events)
    ensures Statuses(events, id) == []
  {
    if |events| > 0 {
      StatusesOfImages(events[1..], id);
    }
  }

  /** A proof step: concatenation of logs regrouped. */
  lemma LogRegroup(a: seq<Event>, b: seq<Event>, c: seq<Event>)
    ensures a + b + c == a + (b + c)
  {
  }

  /** What a log holds after its first `|a|` events. */
  lemma SuffixOf(a: seq<Event>, b: seq<Event>)
    ensures (a + b)[..|a|] == a && (a + b)[|a|..] == b
  {
  }

  /** A proof step: a second write of a key replaces the first. */
  lemma Overwrite(m: map<string, string>, k: string, a: string, b: string)
    ensures m[k := a][k := b] == m[k := b]
  {
  }

  lemma StatusOfOne(id: string, status: string)
    ensures Statuses([StatusWritten(id, status)], id) == [status]
  {
    assert Statuses([StatusWritten(id, status)][1..], id) == [];
  }
}
