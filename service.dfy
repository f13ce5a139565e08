/** The service itself: the upload endpoint (`upload_csv`), the background job
    (`process_file` with `compress_image` and `upload_image_to_s3`) and the
    status lookup (`read_from_db`), over a DynamoDB status table, an S3 bucket
    of CSV documents and an S3 bucket of images kept as maps. Every call to
    an outside service is an oracle fixed when the backend is built. */
module Service {
  import opened Results
  import opened Text
  import opened Ids
  import opened Validation
  import opened Compression
  import opened Documents
  import opened World
  import opened Jobs

  // ---------------------------------------------------------------------------
  // Responses

  /** What `read_from_db` returns or raises. */
  datatype DbResponse = Item(requestId: string, status: string) | DbError(error: HttpError)

  datatype UploadError =
    | NotCsv                        // "Only CSV files are allowed"
    | TooLarge                      // "File size exceeds the 2 MB limit!"
    | Invalid(error: ValidationError)
    | ServerError(detail: string)   // a storage call failed

  datatype UploadResponse =
    | Accepted(message: string, requestId: string)
    | Rejected(code: nat, reason: UploadError)

  const UploadMessage := "File uploaded successfully!"

  /** The validator's `HTTPException`s are 400; the unpack `ValueError` is
      turned into a 500 by `upload_csv`. */
  function RejectionCode(e: ValidationError): (code: nat)
    ensures code == 500 <==> e.TooManyValues?
    ensures code == 400 <==> !e.TooManyValues?
  {
    if e.TooManyValues? then 500 else 400
  }

  /** The checks of `upload_csv`, in order: the content type, the size (only
      a size above the limit is refused) and the contents; `None` when the
      upload passes all three. */
  function Screen(config: Config, contentType: string, size: int, rows: seq<seq<string>>): (r: Option<UploadResponse>)
    ensures r == Some(Rejected(400, NotCsv)) <==> contentType != "text/csv"
    ensures r == Some(Rejected(400, TooLarge)) <==> contentType == "text/csv" && size > config.maxFileSize
    ensures r.None? <==>
      contentType == "text/csv" && size <= config.maxFileSize && ValidateCsv(rows, config.validHeaders).Pass?
    ensures r.Some? ==> r.value.Rejected?
    ensures r.Some? && r.value.reason.Invalid? ==>
      && contentType == "text/csv" && size <= config.maxFileSize
      && ValidateCsv(rows, config.validHeaders) == Fail(r.value.reason.error)
      && r.value.code == RejectionCode(r.value.reason.error)
  {
    if contentType != "text/csv" then Some(Rejected(400, NotCsv))
    else if size > config.maxFileSize then Some(Rejected(400, TooLarge))
    else match ValidateCsv(rows, config.validHeaders)
      case Fail(e) => Some(Rejected(RejectionCode(e), Invalid(e)))
      case Pass => None
  }

  /** How a job ended. A failed job's `recordError` is the exception raised by
      the write of its failure status, which then leaves the background task. */
  datatype JobOutcome =
    | Completed(outputs: seq<seq<string>>)
    | Failed(reason: string, replacedWith: Option<seq<seq<string>>>, recordError: Option<HttpError>)

  // ---------------------------------------------------------------------------
  // What a job leaves in the document bucket

  /** `after` is `before` with the enrichment of `rows` by `outputs` stored
      under the job's key. */
  ghost predicate Published(
    before: map<string, CsvObject>, after: map<string, CsvObject>,
    requestId: string, rows: seq<seq<string>>, outputs: seq<seq<string>>)
  {
    && |rows| >= 1
    && |outputs| == |rows| - 1
    && after == before[CsvKey(requestId) := CsvObject(EnrichedDoc(rows[0], rows[1..], outputs), "text/csv", None)]
  }

  /** The new document a successful job stores: the document under the job's
      key, read back and enriched. */
  ghost predicate StoredResult(
    before: map<string, CsvObject>, after: map<string, CsvObject>,
    requestId: string, outputs: seq<seq<string>>)
  {
    && CsvKey(requestId) in before
    && Published(before, after, requestId, ReadBack(before[CsvKey(requestId)].doc), outputs)
  }

  /** What the body of a job leaves in the document bucket: the enriched
      document once it got as far as uploading it, else the bucket as it was. */
  ghost predicate BucketAfter(
    before: map<string, CsvObject>, after: map<string, CsvObject>, requestId: string, res: BodyResult)
  {
    match res
    case Done(outputs) => StoredResult(before, after, requestId, outputs)
    case Raised(_, replaced) =>
      if replaced.Some? then StoredResult(before, after, requestId, replaced.value) else after == before
  }

  // ---------------------------------------------------------------------------

  class Backend {
    const config: Config
    const oracles: Oracles

    var table: map<string, string>          // DynamoDB: requestId -> status
    var bucket: map<string, CsvObject>      // AWS_BUCKET_NAME
    var images: map<string, StoredImage>    // AWS_IMAGE_BUCKET
    var draws: nat                          // uuid4() calls so far
    var scheduled: seq<string>              // background tasks added
    ghost var events: seq<Event>

    /** The image bucket holds exactly what the logged uploads put there,
        under compact UUIDs with an extension, and every scheduled job has
        its document and a status record. */
    ghost predicate Valid()
      reads this
    {
      && images == StoreImages(map[], events)
      && (forall k :: k in images ==> IsImageKey(k))
      && (forall i :: 0 <= i < |scheduled| ==> scheduled[i] in table && CsvKey(scheduled[i]) in bucket)
    }

    constructor (config: Config, oracles: Oracles)
      ensures Valid()
      ensures this.config == config && this.oracles == oracles
      ensures table == map[] && bucket == map[] && images == map[]
      ensures draws == 0 && scheduled == [] && events == []
    {
      this.config := config;
      this.oracles := oracles;
      table, bucket, images := map[], map[], map[];
      draws, scheduled, events := 0, [], [];
    }

    /** A scheduled job finds its document unless the read itself fails, and
        its status unless the lookup itself fails. */
    lemma ScheduledJobFound(id: string)
      requires Valid() && id in scheduled
      ensures ReadFromS3(id).Ok? <==> oracles.getCsvError(CsvKey(id)).None?
      ensures ReadFromDb(id).Item? <==> oracles.getItemError(id).None?
    {
      var i :| 0 <= i < |scheduled| && scheduled[i] == id;
    }

    /** Every logged upload is in the image bucket. */
    lemma UploadServed(key: string, image: StoredImage)
      requires Valid() && ImageStored(key, image) in events
      ensures key in images
    {
      var i :| 0 <= i < |events| && events[i] == ImageStored(key, image);
      LoggedKeyStored(map[], events, i);
    }

    /** `str(uuid.uuid4()).replace("-", "")`. */
    method NewId() returns (id: string)
      modifies this`draws
      ensures draws == old(draws) + 1
      ensures id == IdOf(oracles.uuid(old(draws))) && IsHexId(id)
    {
      id := IdOf(oracles.uuid(draws));
      draws := draws + 1;
    }

    /** `write_to_db`. */
    method WriteToDb(id: string, status: string) returns (err: Option<HttpError>)
      requires Valid()
      modifies this`table, this`events
      ensures Valid()
      ensures oracles.putItemError(id, status).None? ==>
        err == None && table == old(table)[id := status] && events == old(events) + [StatusWritten(id, status)]
      ensures oracles.putItemError(id, status).Some? ==>
        err == Some(DbWriteError(oracles.putItemError(id, status).value)) && table == old(table) && events == old(events)
    {
      match oracles.putItemError(id, status)
      case Some(e) =>
        err := Some(DbWriteError(e));
      case None =>
        StoreImagesSnoc(map[], events, StatusWritten(id, status));
        table := table[id := status];
        events := events + [StatusWritten(id, status)];
        err := None;
    }

    /** `read_from_db`: the 404 raised for an unknown id is caught by the
        surrounding `except Exception` and raised again as a 500. */
    function ReadFromDb(id: string): (r: DbResponse)
      reads this`table
      ensures r.Item? <==> oracles.getItemError(id).None? && id in table
      ensures r.Item? ==> r.requestId == id && r.status == table[id]
      ensures r.DbError? ==> r.error.code == 500
      ensures oracles.getItemError(id).None? && id !in table ==>
        r == DbError(HttpError(500, "Exception occurred: 404: requestId: " + id + " not found!"))
    {
      match oracles.getItemError(id)
      case Some(e) => DbError(HttpError(500, "Exception occurred: " + e))
      case None =>
        if id in table then Item(id, table[id])
        else
          NotFoundText(id);
          DbError(HttpError(500, "Exception occurred: " + ExceptionText(HttpError(404, "requestId: " + id + " not found!"))))
    }

    /** `upload_to_s3`: stores a CSV document under `<id>.csv`. */
    method UploadToS3(id: string, obj: CsvObject) returns (err: Option<HttpError>)
      requires Valid()
      modifies this`bucket, this`events
      ensures Valid()
      ensures oracles.putCsvError(CsvKey(id), obj).None? ==>
        err == None && bucket == old(bucket)[CsvKey(id) := obj] && events == old(events) + [CsvStored(CsvKey(id))]
      ensures oracles.putCsvError(CsvKey(id), obj).Some? ==>
        err == Some(CsvUploadError(oracles.putCsvError(CsvKey(id), obj).value)) && bucket == old(bucket) && events == old(events)
    {
      match oracles.putCsvError(CsvKey(id), obj)
      case Some(e) =>
        err := Some(CsvUploadError(e));
      case None =>
        StoreImagesSnoc(map[], events, CsvStored(CsvKey(id)));
        bucket := bucket[CsvKey(id) := obj];
        events := events + [CsvStored(CsvKey(id))];
        err := None;
    }

    /** `read_from_s3`: the document under `<id>.csv`; its exceptions are not
        wrapped. */
    function ReadFromS3(id: string): (r: Result<Doc>)
      reads this`bucket
      ensures r.Ok? <==> CsvKey(id) in bucket && oracles.getCsvError(CsvKey(id)).None?
      ensures r.Ok? ==> r.value == bucket[CsvKey(id)].doc
      ensures CsvKey(id) !in bucket ==> r == Err(NoSuchKeyText)
    {
      if CsvKey(id) !in bucket then Err(NoSuchKeyText)
      else match oracles.getCsvError(CsvKey(id))
        case Some(e) => Err(e)
        case None => Ok(bucket[CsvKey(id)].doc)
    }

    /** `upload_image_to_s3`: stores the re-encoded image under a fresh key
        named after its format and returns its public URL. */
    method UploadImageToS3(format: string, source: string, encoding: SaveOptions) returns (r: Result<string>)
      requires Valid()
      modifies this`images, this`draws, this`events
      ensures Valid()
      ensures draws == old(draws) + 1
      ensures var key := ImageKey(IdOf(oracles.uuid(old(draws))), format);
              var image := StoredImage(ContentType(format), source, encoding);
              if oracles.putImageError(key, image).None? then
                && r == Ok(PublicUrl(config.imageBucket, config.region, key))
                && images == old(images)[key := image]
                && events == old(events) + [ImageStored(key, image)]
              else
                && r == Err(ExceptionText(ImageUploadError(oracles.putImageError(key, image).value)))
                && images == old(images) && events == old(events)
    {
      var id := NewId();
      var key := ImageKey(id, format);
      var image := StoredImage(ContentType(format), source, encoding);
      match oracles.putImageError(key, image)
      case Some(e) =>
        r := Err(ExceptionText(ImageUploadError(e)));
      case None =>
        StoreImagesSnoc(map[], events, ImageStored(key, image));
        images := images[key := image];
        events := events + [ImageStored(key, image)];
        r := Ok(PublicUrl(config.imageBucket, config.region, key));
    }

    /** `compress_image`: fetch and decode, re-encode with the options the
        format calls for, then upload; the returned URL names the stored
        image fetched from `url`. */
    method CompressImage(url: string) returns (r: Result<string>)
      requires Valid()
      modifies this`images, this`draws, this`events
      ensures Valid()
      ensures var a := ImageRun(config, oracles, url, old(draws));
        && r == AttemptResult(config, a)
        && draws == old(draws) + AttemptDraws(a)
        && events == old(events) + AttemptLog(a)
      ensures r.Ok? ==>
        var key := r.value[|PublicUrlPrefix(config.imageBucket, config.region)|..];
        key in images && images[key].source == url
    {
      ImageRunFacts(config, oracles, url, draws);
      match oracles.openImage(url)
      case OpenFailed(reason) =>
        r := Err(reason);
      case Decoded(format) =>
        var options := SaveOptionsFor(format, config.imageQuality);
        match oracles.encodeError(url, options)
        case Some(e) =>
          r := Err(e);
        case None =>
          r := UploadImageToS3(format, url, options);
    }

    /** `[compress_image(url) for url in urls]`, abandoned at the first
        exception. */
    method CompressAll(urls: seq<string>) returns (r: Result<seq<string>>)
      requires Valid()
      modifies this`images, this`draws, this`events
      ensures Valid()
      ensures var run := CompressRun(config, oracles, urls, old(draws));
        r == run.result && draws == run.draws && events == old(events) + run.log
    {
      var out: seq<string> := [];
      var j := 0;
      while j < |urls|
        invariant 0 <= j <= |urls|
        invariant Valid()
        invariant var run := CompressRun(config, oracles, urls[..j], old(draws));
          run.result == Ok(out) && run.draws == draws && events == old(events) + run.log
      {
        ghost var pre := CompressRun(config, oracles, urls[..j], old(draws));
        ghost var a := ImageRun(config, oracles, urls[j], draws);
        var u := CompressImage(urls[j]);
        CompressRunStep(config, oracles, urls, old(draws), j);
        LogRegroup(old(events), pre.log, AttemptLog(a));
        if u.Err? {
          CompressRunStops(config, oracles, urls, old(draws), j + 1);
          return Err(u.reason);
        }
        out := out + [u.value];
        j := j + 1;
      }
      assert urls[..j] == urls;
      r := Ok(out);
    }

    /** The header line and the `for row in csv_reader` loop of `process_file`:
        the header gains the output column and the whole extended header
        becomes the one field of the first row; each data row gains the list of
        its transformed URLs. */
    method EnrichDocument(rows: seq<seq<string>>) returns (r: Result<Doc>, outputs: seq<seq<string>>)
      requires Valid()
      modifies this`images, this`draws, this`events
      ensures Valid()
      ensures var run := DocRun(config, oracles, rows, old(draws));
        && draws == run.draws && events == old(events) + run.log
        && (r.Ok? <==> run.result.Ok?)
        && (r.Err? ==> run.result == Err(r.reason))
        && (r.Ok? ==> outputs == run.result.value && r.value == EnrichedDoc(rows[0], rows[1..], outputs))
    {
      outputs := [];
      if |rows| == 0 {
        return Err(StopIterationText), outputs;
      }
      var header := rows[0] + [OutputHeader];
      var data := rows[1..];
      var newCsv: Doc := [[StrList(header)]];
      var i := 0;
      while i < |data|
        invariant 0 <= i <= |data| && |outputs| == i
        invariant Valid()
        invariant var run := RowsRun(config, oracles, data[..i], old(draws));
          run.result == Ok(outputs) && run.draws == draws && events == old(events) + run.log
        invariant newCsv == [[StrList(header)]] + EnrichedRows(data[..i], outputs)
      {
        var urls := EnrichRow(data, i, old(draws), old(events), outputs);
        if urls.Err? {
          return Err(urls.reason), outputs;
        }
        EnrichedRowsSnoc(data, outputs, i, urls.value);
        newCsv := newCsv + [EnrichedRow(data[i], urls.value)];
        outputs := outputs + [urls.value];
        i := i + 1;
      }
      assert data[..i] == data;
      r := Ok(newCsv);
    }

    /** One pass of the row loop: the third field of `data[i]` read as a
        comma-separated list and compressed, or the exception that ends the
        loop, after the passes before it (`draw` and `before` are the draw
        count and the log when the loop began). */
    method EnrichRow(data: seq<seq<string>>, i: nat, ghost draw: nat, ghost before: seq<Event>,
                     ghost outputs: seq<seq<string>>) returns (urls: Result<seq<string>>)
      requires Valid() && i < |data|
      requires var run := RowsRun(config, oracles, data[..i], draw);
        run.result == Ok(outputs) && run.draws == draws && events == before + run.log
      modifies this`images, this`draws, this`events
      ensures Valid()
      ensures urls.Ok? ==> |data[i]| >= 3
      ensures urls.Ok? ==>
        var run := RowsRun(config, oracles, data[..i + 1], draw);
        run.result == Ok(outputs + [urls.value]) && run.draws == draws && events == before + run.log
      ensures urls.Err? ==>
        var run := RowsRun(config, oracles, data, draw);
        run.result == Err(urls.reason) && run.draws == draws && events == before + run.log
    {
      ghost var pre := RowsRun(config, oracles, data[..i], draw);
      RowsRunStep(config, oracles, data, draw, i);
      if |data[i]| < 3 {
        assert pre.log + [] == pre.log;
        RowsRunStops(config, oracles, data, draw, i + 1);
        return Err(IndexErrorText);
      }
      urls := CompressAll(Split(data[i][2], ','));
      ghost var c := CompressRun(config, oracles, Split(data[i][2], ','), pre.draws);
      LogRegroup(before, pre.log, c.log);
      if urls.Err? {
        RowsRunStops(config, oracles, data, draw, i + 1);
      }
    }

    /** `process_file`: the body, and when an exception leaves it, the
        failure status naming that exception. The outcome is the reference
        run's: completed exactly when the in-progress write, the read, every
        image, the upload of the result and the completed write succeed. */
    method ProcessFile(id: string) returns (outcome: JobOutcome)
      requires Valid()
      modifies this`table, this`bucket, this`images, this`draws, this`events
      ensures Valid()
      ensures var body := BodyRun(config, oracles, id, old(ReadFromS3(id)), old(draws));
        && (outcome.Completed? <==> body.Done?)
        && (outcome.Completed? ==> outcome.outputs == body.outputs)
        && (outcome.Failed? ==> outcome.reason == body.reason && outcome.replacedWith == body.replacedWith)
      ensures var e := JobEffects(config, oracles, id, old(ReadFromS3(id)), old(draws));
        draws == e.draws && events == old(events) + e.log
      ensures |old(events)| <= |events| && events[..|old(events)|] == old(events)
      ensures outcome.Completed? ==>
        && StoredResult(old(bucket), bucket, id, outcome.outputs)
        && table == old(table)[id := StatusCompleted]
        && Statuses(events[|old(events)|..], id) == [StatusInProgress, StatusCompleted]
      ensures outcome.Failed? ==>
        var started := oracles.putItemError(id, StatusInProgress).None?;
        var recorded := outcome.recordError.None?;
        var afterBody := if started then old(table)[id := StatusInProgress] else old(table);
        && (recorded <==> oracles.putItemError(id, StatusFailed(outcome.reason)).None?)
        && (!recorded ==> outcome.recordError.value == DbWriteError(oracles.putItemError(id, StatusFailed(outcome.reason)).value))
        && table == (if recorded then afterBody[id := StatusFailed(outcome.reason)] else afterBody)
        && Statuses(events[|old(events)|..], id) ==
             (if started then [StatusInProgress] else []) + (if recorded then [StatusFailed(outcome.reason)] else [])
        && (outcome.replacedWith.None? ==> bucket == old(bucket))
        && (outcome.replacedWith.Some? ==> StoredResult(old(bucket), bucket, id, outcome.replacedWith.value))
    {
      var body := ProcessBody(id);
      if body.Done? {
        return Completed(body.outputs);
      }
      var err := RecordFailure(id, body.reason);
      LogRegroup(old(events), BodyEffects(config, oracles, id, old(ReadFromS3(id)), old(draws)).log,
        if err.None? then [StatusWritten(id, StatusFailed(body.reason))] else []);
      JobStatuses(config, oracles, id, old(ReadFromS3(id)), old(draws));
      SuffixOf(old(events), JobEffects(config, oracles, id, old(ReadFromS3(id)), old(draws)).log);
      outcome := Failed(body.reason, body.replacedWith, err);
    }

    /** The `try` block of `process_file`: the in-progress status, then the
        rest of the job. */
    method ProcessBody(id: string) returns (res: BodyResult)
      requires Valid()
      modifies this`table, this`bucket, this`images, this`draws, this`events
      ensures Valid()
      ensures res == BodyRun(config, oracles, id, old(ReadFromS3(id)), old(draws))
      ensures var e := BodyEffects(config, oracles, id, old(ReadFromS3(id)), old(draws));
        draws == e.draws && events == old(events) + e.log
      ensures |old(events)| <= |events| && events[..|old(events)|] == old(events)
      ensures oracles.putItemError(id, StatusInProgress).Some? ==>
        table == old(table) && bucket == old(bucket) && events == old(events)
      ensures res.Done? ==>
        && table == old(table)[id := StatusCompleted]
        && Statuses(events[|old(events)|..], id) == [StatusInProgress, StatusCompleted]
      ensures res.Raised? ==>
        && table == (if oracles.putItemError(id, StatusInProgress).None? then old(table)[id := StatusInProgress] else old(table))
        && Statuses(events[|old(events)|..], id) == (if oracles.putItemError(id, StatusInProgress).None? then [StatusInProgress] else [])
      ensures BucketAfter(old(bucket), bucket, id, res)
    {
      ghost var e := BodyEffects(config, oracles, id, ReadFromS3(id), draws);
      BodyStatuses(config, oracles, id, ReadFromS3(id), draws);
      var err := WriteToDb(id, StatusInProgress);
      if err.Some? {
        assert old(events) + [] == old(events);
        SuffixOf(old(events), e.log);
        return Raised(ExceptionText(err.value), None);
      }
      res := ProcessStarted(id);
      LogRegroup(old(events), [StatusWritten(id, StatusInProgress)],
        StartedEffects(config, oracles, id, old(ReadFromS3(id)), old(draws)).log);
      SuffixOf(old(events), e.log);
      if res.Done? {
        Overwrite(old(table), id, StatusInProgress, StatusCompleted);
        assert [StatusInProgress] + [StatusCompleted] == [StatusInProgress, StatusCompleted];
      }
    }

    /** The job after its in-progress status: read the document back, then
        enrich and publish it. */
    method ProcessStarted(id: string) returns (res: BodyResult)
      requires Valid()
      modifies this`table, this`bucket, this`images, this`draws, this`events
      ensures Valid()
      ensures res == StartedRun(config, oracles, id, old(ReadFromS3(id)), old(draws))
      ensures var e := StartedEffects(config, oracles, id, old(ReadFromS3(id)), old(draws));
        draws == e.draws && events == old(events) + e.log
      ensures |old(events)| <= |events| && events[..|old(events)|] == old(events)
      ensures res.Done? ==>
        && table == old(table)[id := StatusCompleted]
        && Statuses(events[|old(events)|..], id) == [StatusCompleted]
      ensures res.Raised? ==> table == old(table) && Statuses(events[|old(events)|..], id) == []
      ensures BucketAfter(old(bucket), bucket, id, res)
    {
      var read := ReadFromS3(id);
      if read.Err? {
        assert events[|old(events)|..] == [];
        assert old(events) + [] == old(events);
        return Raised(read.reason, None);
      }
      res := EnrichAndPublish(id, ReadBack(read.value));
    }

    /** The row loop over the rows read back, then the upload of the result and
        the completed status. */
    method EnrichAndPublish(id: string, rows: seq<seq<string>>) returns (res: BodyResult)
      requires Valid()
      modifies this`table, this`bucket, this`images, this`draws, this`events
      ensures Valid()
      ensures res == PublishRun(config, oracles, id, rows, old(draws))
      ensures var e := PublishEffects(config, oracles, id, rows, old(draws));
        draws == e.draws && events == old(events) + e.log
      ensures |old(events)| <= |events| && events[..|old(events)|] == old(events)
      ensures res.Done? ==>
        && Published(old(bucket), bucket, id, rows, res.outputs)
        && table == old(table)[id := StatusCompleted]
        && Statuses(events[|old(events)|..], id) == [StatusCompleted]
      ensures res.Raised? ==> table == old(table) && Statuses(events[|old(events)|..], id) == []
      ensures res.Raised? && res.replacedWith.None? ==> bucket == old(bucket)
      ensures res.Raised? && res.replacedWith.Some? ==> Published(old(bucket), bucket, id, rows, res.replacedWith.value)
    {
      ghost var e := PublishEffects(config, oracles, id, rows, old(draws));
      PublishStatuses(config, oracles, id, rows, old(draws));
      var doc, outputs := EnrichDocument(rows);
      if doc.Err? {
        res := Raised(doc.reason, None);
      } else {
        res := PublishEnriched(id, rows, doc.value, outputs, old(draws), old(events));
      }
      SuffixOf(old(events), e.log);
    }

    /** The end of the job once the row loop, started with draw `draw`
        after the events `before`, produced `outputs` and the enriched
        document `doc`. */
    method PublishEnriched(id: string, rows: seq<seq<string>>, doc: Doc, outputs: seq<seq<string>>,
                           ghost draw: nat, ghost before: seq<Event>) returns (res: BodyResult)
      requires Valid()
      requires var run := DocRun(config, oracles, rows, draw);
        run.result == Ok(outputs) && draws == run.draws && events == before + run.log
      requires |rows| >= 1 && |outputs| == |rows| - 1 && doc == EnrichedDoc(rows[0], rows[1..], outputs)
      modifies this`table, this`bucket, this`events
      ensures Valid()
      ensures res == PublishRun(config, oracles, id, rows, draw)
      ensures events == before + PublishEffects(config, oracles, id, rows, draw).log
      ensures res.Done? ==>
        Published(old(bucket), bucket, id, rows, res.outputs) && table == old(table)[id := StatusCompleted]
      ensures res.Raised? ==> table == old(table)
      ensures res.Raised? && res.replacedWith.None? ==> bucket == old(bucket)
      ensures res.Raised? && res.replacedWith.Some? ==> Published(old(bucket), bucket, id, rows, res.replacedWith.value)
    {
      ghost var run := DocRun(config, oracles, rows, draw);
      var obj := CsvObject(doc, "text/csv", None);
      res := PublishResult(id, outputs, obj);
      LogRegroup(before, run.log, PublishTail(oracles, id, obj));
    }

    /** The end of the `try` block: the result replaces the document under
        `<id>.csv`, then the completed status is written. */
    method PublishResult(id: string, outputs: seq<seq<string>>, obj: CsvObject) returns (res: BodyResult)
      requires Valid()
      modifies this`table, this`bucket, this`events
      ensures Valid()
      ensures res == PublishEnd(oracles, id, outputs, obj)
      ensures events == old(events) + PublishTail(oracles, id, obj)
      ensures oracles.putCsvError(CsvKey(id), obj).None? ==> bucket == old(bucket)[CsvKey(id) := obj]
      ensures oracles.putCsvError(CsvKey(id), obj).Some? ==> bucket == old(bucket)
      ensures res.Done? ==> table == old(table)[id := StatusCompleted]
      ensures res.Raised? ==> table == old(table)
    {
      var err := UploadToS3(id, obj);
      if err.Some? {
        return Raised(ExceptionText(err.value), None);
      }
      err := WriteToDb(id, StatusCompleted);
      if err.Some? {
        return Raised(ExceptionText(err.value), Some(outputs));
      }
      res := Done(outputs);
    }

    /** The `except` branch of `process_file`: the failure status naming the
        exception; if that write fails too, its exception leaves the task. */
    method RecordFailure(id: string, reason: string) returns (err: Option<HttpError>)
      requires Valid()
      modifies this`table, this`events
      ensures Valid()
      ensures err.None? <==> oracles.putItemError(id, StatusFailed(reason)).None?
      ensures err.Some? ==>
        && err.value == DbWriteError(oracles.putItemError(id, StatusFailed(reason)).value)
        && table == old(table) && events == old(events)
      ensures err.None? ==>
        table == old(table)[id := StatusFailed(reason)] && events == old(events) + [StatusWritten(id, StatusFailed(reason))]
      ensures |old(events)| <= |events| && events[..|old(events)|] == old(events)
      ensures Statuses(events[|old(events)|..], id) == (if err.None? then [StatusFailed(reason)] else [])
    {
      err := WriteToDb(id, StatusFailed(reason));
      if err.None? {
        assert events[|old(events)|..] == [StatusWritten(id, StatusFailed(reason))];
        assert Statuses(events[|old(events)|..], id) == [StatusFailed(reason)] + Statuses([], id);
      } else {
        assert events[|old(events)|..] == [];
      }
    }

    /** `upload_csv`: an upload that passes `Screen` is stored under a fresh
        request id, its status is set to pending and `process_file` is
        scheduled for it; one that does not is answered with the rejection and
        changes nothing. */
    method UploadCsv(contentType: string, size: int, filename: string, rows: seq<seq<string>>)
      returns (resp: UploadResponse)
      requires Valid()
      modifies this`table, this`bucket, this`draws, this`scheduled, this`events
      ensures Valid()
      ensures Screen(config, contentType, size, rows).Some? ==>
        resp == Screen(config, contentType, size, rows).value && unchanged(this)
      ensures Screen(config, contentType, size, rows).None? ==>
        var rid := IdOf(oracles.uuid(old(draws)));
        var obj := CsvObject(Plain(rows), contentType, Some(filename));
        var storeError := oracles.putCsvError(CsvKey(rid), obj);
        var pendingError := oracles.putItemError(rid, StatusPending);
        && draws == old(draws) + 1
        && (storeError.Some? ==>
              && resp == Rejected(500, ServerError("Error occurred while writing file to S3: " + storeError.value))
              && bucket == old(bucket) && table == old(table) && scheduled == old(scheduled) && events == old(events))
        && (storeError.None? ==> bucket == old(bucket)[CsvKey(rid) := obj])
        && (storeError.None? && pendingError.Some? ==>
              && resp == Rejected(500, ServerError("Error occurred while writing to DB: " + pendingError.value))
              && table == old(table) && scheduled == old(scheduled) && events == old(events) + [CsvStored(CsvKey(rid))])
        && (storeError.None? && pendingError.None? ==>
              && resp == Accepted(UploadMessage, rid)
              && table == old(table)[rid := StatusPending]
              && scheduled == old(scheduled) + [rid]
              && events == old(events) + [CsvStored(CsvKey(rid)), StatusWritten(rid, StatusPending), TaskScheduled(rid)])
      ensures resp.Accepted? ==> IsHexId(resp.requestId)
      ensures resp.Accepted? && ReadFromS3(resp.requestId).Ok? ==> ReadBack(ReadFromS3(resp.requestId).value) == rows
      ensures resp.Accepted? && oracles.getItemError(resp.requestId).None? ==>
        ReadFromDb(resp.requestId) == Item(resp.requestId, StatusPending)
    {
      var rejection := Screen(config, contentType, size, rows);
      if rejection.Some? {
        return rejection.value;
      }
      resp := Admit(contentType, filename, rows);
      ReadBackPlain(rows);
    }

    /** The part of `upload_csv` after the checks: a fresh request id, then
        the upload under it. */
    method Admit(contentType: string, filename: string, rows: seq<seq<string>>) returns (resp: UploadResponse)
      requires Valid()
      modifies this`table, this`bucket, this`draws, this`scheduled, this`events
      ensures Valid()
      ensures draws == old(draws) + 1
      ensures
        var rid := IdOf(oracles.uuid(old(draws)));
        var obj := CsvObject(Plain(rows), contentType, Some(filename));
        Enqueued(old(table), table, old(bucket), bucket, old(scheduled), scheduled, old(events), events, rid, obj, resp)
      ensures resp.Accepted? ==> IsHexId(resp.requestId)
      ensures resp.Accepted? ==> CsvKey(resp.requestId) in bucket && bucket[CsvKey(resp.requestId)].doc == Plain(rows)
      ensures resp.Accepted? ==> resp.requestId in table && table[resp.requestId] == StatusPending
    {
      var rid := NewId();
      resp := Enqueue(rid, CsvObject(Plain(rows), contentType, Some(filename)));
    }

    /** Stores the document under the request id, writes the pending status
        and schedules `process_file`, stopping at the first failure. */
    method Enqueue(rid: string, obj: CsvObject) returns (resp: UploadResponse)
      requires Valid()
      modifies this`table, this`bucket, this`scheduled, this`events
      ensures Valid()
      ensures Enqueued(old(table), table, old(bucket), bucket, old(scheduled), scheduled, old(events), events, rid, obj, resp)
    {
      var err := UploadToS3(rid, obj);
      if err.Some? {
        return Rejected(500, ServerError(err.value.detail));
      }
      err := WriteToDb(rid, StatusPending);
      if err.Some? {
        return Rejected(500, ServerError(err.value.detail));
      }
      Schedule(rid);
      resp := Accepted(UploadMessage, rid);
    }

    /** `background_tasks.add_task(process_file, request_id)`. */
    method Schedule(rid: string)
      requires Valid() && rid in table && CsvKey(rid) in bucket
      modifies this`scheduled, this`events
      ensures Valid()
      ensures scheduled == old(scheduled) + [rid] && events == old(events) + [TaskScheduled(rid)]
    {
      StoreImagesSnoc(map[], events, TaskScheduled(rid));
      scheduled := scheduled + [rid];
      events := events + [TaskScheduled(rid)];
    }

    /** The effect of storing `obj` for request `rid`: a failed upload changes
        nothing; a failed status write leaves the stored document; otherwise
        the status is pending and the job is scheduled. */
    ghost predicate Enqueued(
      table0: map<string, string>, table1: map<string, string>,
      bucket0: map<string, CsvObject>, bucket1: map<string, CsvObject>,
      scheduled0: seq<string>, scheduled1: seq<string>,
      events0: seq<Event>, events1: seq<Event>,
      rid: string, obj: CsvObject, resp: UploadResponse)
    {
      var storeError := oracles.putCsvError(CsvKey(rid), obj);
      var pendingError := oracles.putItemError(rid, StatusPending);
      && (storeError.Some? ==>
            && resp == Rejected(500, ServerError("Error occurred while writing file to S3: " + storeError.value))
            && bucket1 == bucket0 && table1 == table0 && scheduled1 == scheduled0 && events1 == events0)
      && (storeError.None? ==> bucket1 == bucket0[CsvKey(rid) := obj])
      && (storeError.None? && pendingError.Some? ==>
            && resp == Rejected(500, ServerError("Error occurred while writing to DB: " + pendingError.value))
            && table1 == table0 && scheduled1 == scheduled0 && events1 == events0 + [CsvStored(CsvKey(rid))])
      && (storeError.None? && pendingError.None? ==>
            && resp == Accepted(UploadMessage, rid)
            && table1 == table0[rid := StatusPending]
            && scheduled1 == scheduled0 + [rid]
            && events1 == events0 + [CsvStored(CsvKey(rid)), StatusWritten(rid, StatusPending), TaskScheduled(rid)])
    }
  }

}
