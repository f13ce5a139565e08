/** The background job as the outside world decides it: what one
    `compress_image` call, the list comprehension over a row's URLs, the row
    loop and the `try` block of `process_file` (main.py:104-169) produce,
    computed from the configuration, the oracles and the uuid draw counter
    alone. Each run is the reference for one method of `Service.Backend`
    (`ImageRun` for `CompressImage`, `CompressRun` for `CompressAll`, `DocRun`
    for `EnrichDocument`, `PublishRun` for `EnrichAndPublish`, `StartedRun`
    for `ProcessStarted`, `BodyRun` for `ProcessBody`, `JobEffects` for
    `ProcessFile`), which is proved to follow it. */
module Jobs {
  import opened Results
  import opened Text
  import opened Ids
  import opened Compression
  import opened Documents
  import opened World

  // ---------------------------------------------------------------------------
  // One image

  /** How one `compress_image(url)` call ends. */
  datatype ImageAttempt =
    | NotEncoded(reason: string)                // the fetch, the decode or `image.save` raised; no uuid drawn
    | UploadFailed(reason: string)              // `upload_image_to_s3` raised after drawing its uuid
    | Uploaded(key: string, image: StoredImage) // the image is stored under `key`

  /** `compress_image(url)` when the next `uuid4()` is draw number `draw`. */
  function ImageRun(config: Config, oracles: Oracles, url: string, draw: nat): ImageAttempt
  {
    match oracles.openImage(url)
    case OpenFailed(reason) => NotEncoded(reason)
    case Decoded(format) =>
      var options := SaveOptionsFor(format, config.imageQuality);
      match oracles.encodeError(url, options)
      case Some(e) => NotEncoded(e)
      case None =>
        var key := ImageKey(IdOf(oracles.uuid(draw)), format);
        var image := StoredImage(ContentType(format), url, options);
        match oracles.putImageError(key, image)
        case Some(e) => UploadFailed(ExceptionText(ImageUploadError(e)))
        case None => Uploaded(key, image)
  }

  /** A failed fetch or decode ends the call with its own exception text;
      any later stage means fetch, decode and encoding succeeded; an uploaded
      image was fetched from `url`, encoded as its format calls for, and
      stored under a fresh compact UUID whose extension its Content-Type
      names. */
  lemma ImageRunFacts(config: Config, oracles: Oracles, url: string, draw: nat)
    ensures var a := ImageRun(config, oracles, url, draw);
      && (oracles.openImage(url).OpenFailed? ==> a == NotEncoded(oracles.openImage(url).reason))
      && (!a.NotEncoded? ==>
          var format := oracles.openImage(url).format;
          && oracles.openImage(url).Decoded?
          && oracles.encodeError(url, SaveOptionsFor(format, config.imageQuality)).None?)
      && (a.Uploaded? ==> oracles.putImageError(a.key, a.image).None?)
      && (a.Uploaded? ==>
          && a.image.source == url
          && a.image.encoding == SaveOptionsFor(oracles.openImage(url).format, config.imageQuality)
          && IsImageKey(a.key) && ImageKeyId(a.key) == IdOf(oracles.uuid(draw))
          && a.image.contentType == "image/" + a.key[33..])
  {
  }

  /** What `compress_image` returns: the public URL of the stored image, or the
      text of the exception it raised. */
  function AttemptResult(config: Config, a: ImageAttempt): Result<string> {
    match a
    case NotEncoded(e) => Err(e)
    case UploadFailed(e) => Err(e)
    case Uploaded(key, _) => Ok(PublicUrl(config.imageBucket, config.region, key))
  }

  /** The uuid draws of one call: one once the image is encoded. */
  function AttemptDraws(a: ImageAttempt): nat {
    if a.NotEncoded? then 0 else 1
  }

  /** The upload of one call, if it happened. */
  function AttemptLog(a: ImageAttempt): seq<Event> {
    if a.Uploaded? then [ImageStored(a.key, a.image)] else []
  }

  // ---------------------------------------------------------------------------
  // Sequences of calls

  /** The outcome of a sequence of calls: what it returns or the text of the
      exception that stopped it, the draw counter afterwards, and the images
      it uploaded, in order. */
  datatype Run<T> = Run(result: Result<T>, draws: nat, log: seq<Event>)

  /** A Python loop or list comprehension that calls `step` on each element
      in order, collecting the results, until the first exception, which
      leaves the loop. */
  function Sequence<X, T>(step: (X, nat) -> Run<T>, xs: seq<X>, draw: nat): (run: Run<seq<T>>)
    ensures run.result.Ok? ==> |run.result.value| == |xs|
    decreases |xs|
  {
    if |xs| == 0 then Run(Ok([]), draw, [])
    else
      var pre := Sequence(step, xs[..|xs| - 1], draw);
      if pre.result.Err? then pre else Extend(pre, step(xs[|xs| - 1], pre.draws))
  }

  /** A successful run followed by one more call. */
  function Extend<T>(pre: Run<seq<T>>, last: Run<T>): (run: Run<seq<T>>)
    requires pre.result.Ok?
    ensures run.result.Ok? <==> last.result.Ok?
    ensures run.result.Ok? ==> run.result.value == pre.result.value + [last.result.value]
    ensures run.result.Err? ==> run.result.reason == last.result.reason
    ensures run.draws == last.draws && run.log == pre.log + last.log
  {
    Run(if last.result.Ok? then Ok(pre.result.value + [last.result.value]) else Err(last.result.reason),
        last.draws, pre.log + last.log)
  }

  /** The sequence over one more element, as the loops compute it. */
  lemma SequenceSnoc<X, T>(step: (X, nat) -> Run<T>, xs: seq<X>, x: X, draw: nat)
    ensures var pre := Sequence(step, xs, draw);
      Sequence(step, xs + [x], draw) == if pre.result.Err? then pre else Extend(pre, step(x, pre.draws))
  {
    assert (xs + [x])[..|xs|] == xs;
  }

  /** The call on element `i`, made after the calls on the elements before it. */
  function StepAt<X, T>(step: (X, nat) -> Run<T>, xs: seq<X>, draw: nat, i: nat): Run<T>
    requires i < |xs|
  {
    step(xs[i], Sequence(step, xs[..i], draw).draws)
  }

  /** Once a prefix has failed, the rest is never tried. */
  lemma {:induction false} SequenceStops<X, T>(step: (X, nat) -> Run<T>, xs: seq<X>, draw: nat, m: nat)
    requires m <= |xs| && Sequence(step, xs[..m], draw).result.Err?
    ensures Sequence(step, xs, draw) == Sequence(step, xs[..m], draw)
    decreases |xs|
  {
    if m == |xs| {
      assert xs[..m] == xs;
    } else {
      var n := |xs| - 1;
      assert xs[..n][..m] == xs[..m];
      SequenceStops(step, xs[..n], draw, m);
    }
  }

  /** The sequence over the first `j + 1` elements, from the one over the
      first `j`: the step of a loop. */
  lemma SequencePrefixStep<X, T>(step: (X, nat) -> Run<T>, xs: seq<X>, draw: nat, j: nat)
    requires j < |xs| && Sequence(step, xs[..j], draw).result.Ok?
    ensures var pre := Sequence(step, xs[..j], draw);
      Sequence(step, xs[..j + 1], draw) == Extend(pre, step(xs[j], pre.draws))
  {
    SequenceSnoc(step, xs[..j], xs[j], draw);
    assert xs[..j] + [xs[j]] == xs[..j + 1];
  }

  /** A call is made the same way in a prefix as in the whole sequence. */
  lemma StepOfPrefix<X, T>(step: (X, nat) -> Run<T>, xs: seq<X>, draw: nat, n: nat, i: nat)
    requires i < n <= |xs|
    ensures StepAt(step, xs[..n], draw, i) == StepAt(step, xs, draw, i)
  {
    assert xs[..n][..i] == xs[..i];
    assert xs[..n][i] == xs[i];
  }

  /** The sequence succeeds exactly when every call succeeds. */
  lemma {:induction false} SequenceOk<X, T>(step: (X, nat) -> Run<T>, xs: seq<X>, draw: nat)
    ensures Sequence(step, xs, draw).result.Ok? <==>
      forall i :: 0 <= i < |xs| ==> StepAt(step, xs, draw, i).result.Ok?
    decreases |xs|
  {
    if |xs| > 0 {
      var n := |xs| - 1;
      SequenceOk(step, xs[..n], draw);
      assert StepAt(step, xs, draw, n) == step(xs[n], Sequence(step, xs[..n], draw).draws);
      forall i | 0 <= i < n
        ensures StepAt(step, xs[..n], draw, i) == StepAt(step, xs, draw, i)
      {
        StepOfPrefix(step, xs, draw, n, i);
      }
    }
  }

  /** When the sequence succeeds, result i is what call i returned, every
      prefix succeeded, and the log of the calls up to and including call i
      begins the whole log. */
  lemma {:induction false} SequenceValues<X, T>(step: (X, nat) -> Run<T>, xs: seq<X>, draw: nat, i: nat)
    requires Sequence(step, xs, draw).result.Ok?
    requires i < |xs|
    ensures Sequence(step, xs[..i], draw).result.Ok? && StepAt(step, xs, draw, i).result.Ok?
    ensures var run := Sequence(step, xs, draw);
      && run.result.value[i] == StepAt(step, xs, draw, i).result.value
      && Sequence(step, xs[..i], draw).log + StepAt(step, xs, draw, i).log <= run.log
    decreases |xs|
  {
    var n := |xs| - 1;
    var pre := Sequence(step, xs[..n], draw);
    var run := Sequence(step, xs, draw);
    assert pre.result.Ok?;
    if i < n {
      SequenceValues(step, xs[..n], draw, i);
      StepOfPrefix(step, xs, draw, n, i);
      assert xs[..n][..i] == xs[..i];
      assert run.result.value[i] == pre.result.value[i];
      assert pre.log <= run.log;
    }
  }

  /** The first call that fails stops the sequence with its own exception
      text. */
  lemma SequenceFirstFailure<X, T>(step: (X, nat) -> Run<T>, xs: seq<X>, draw: nat, k: nat)
    requires k < |xs|
    requires Sequence(step, xs[..k], draw).result.Ok?
    requires StepAt(step, xs, draw, k).result.Err?
    ensures Sequence(step, xs, draw).result == Err(StepAt(step, xs, draw, k).result.reason)
  {
    var upTo := xs[..k + 1];
    assert upTo[..k] == xs[..k] && upTo[k] == xs[k];
    assert Sequence(step, upTo, draw).result.Err?;
    SequenceStops(step, xs, draw, k + 1);
  }

  /** When each successful call draws exactly one uuid, call i is made with
      draw `draw + i`, and the sequence succeeds exactly when each of those
      calls does. */
  lemma {:induction false} SequenceUnitDraws<X, T>(step: (X, nat) -> Run<T>, xs: seq<X>, draw: nat)
    requires forall x, d: nat :: step(x, d).result.Ok? ==> step(x, d).draws == d + 1
    ensures Sequence(step, xs, draw).result.Ok? <==>
      forall i :: 0 <= i < |xs| ==> step(xs[i], draw + i).result.Ok?
    ensures Sequence(step, xs, draw).result.Ok? ==> Sequence(step, xs, draw).draws == draw + |xs|
    decreases |xs|
  {
    if |xs| > 0 {
      var n := |xs| - 1;
      SequenceUnitDraws(step, xs[..n], draw);
      assert forall i :: 0 <= i < n ==> xs[..n][i] == xs[i];
    }
  }

  /** With one uuid per successful call, the first of the calls `step(xs[i],
      draw + i)` that fails stops the sequence with its own exception text. */
  lemma SequenceUnitFirstFailure<X, T>(step: (X, nat) -> Run<T>, xs: seq<X>, draw: nat, k: nat)
    requires forall x, d: nat :: step(x, d).result.Ok? ==> step(x, d).draws == d + 1
    requires k < |xs|
    requires forall j :: 0 <= j < k ==> step(xs[j], draw + j).result.Ok?
    requires step(xs[k], draw + k).result.Err?
    ensures Sequence(step, xs, draw).result == Err(step(xs[k], draw + k).result.reason)
  {
    assert forall j :: 0 <= j < k ==> xs[..k][j] == xs[j];
    SequenceUnitDraws(step, xs[..k], draw);
    SequenceFirstFailure(step, xs, draw, k);
  }

  /** What a call writes is in the log of any successful sequence it is part
      of. */
  lemma SequenceLogged<X, T>(step: (X, nat) -> Run<T>, xs: seq<X>, draw: nat, i: nat)
    requires Sequence(step, xs, draw).result.Ok?
    requires i < |xs|
    ensures forall e :: e in StepAt(step, xs, draw, i).log ==> e in Sequence(step, xs, draw).log
  {
    SequenceValues(step, xs, draw, i);
    forall e | e in StepAt(step, xs, draw, i).log ensures e in Sequence(step, xs, draw).log {
      InLaterLog(Sequence(step, xs[..i], draw).log, StepAt(step, xs, draw, i).log, Sequence(step, xs, draw).log, e);
    }
  }

  /** With one uuid per successful call, call i of a successful sequence is
      made with draw `draw + i`; its result is result i and its uploads are in
      the log. */
  lemma SequenceUnitStep<X, T>(step: (X, nat) -> Run<T>, xs: seq<X>, draw: nat, i: nat)
    requires forall x, d: nat :: step(x, d).result.Ok? ==> step(x, d).draws == d + 1
    requires Sequence(step, xs, draw).result.Ok?
    requires i < |xs|
    ensures step(xs[i], draw + i).result.Ok?
    ensures Sequence(step, xs, draw).result.value[i] == step(xs[i], draw + i).result.value
    ensures forall e :: e in step(xs[i], draw + i).log ==> e in Sequence(step, xs, draw).log
  {
    SequenceValues(step, xs, draw, i);
    SequenceLogged(step, xs, draw, i);
    SequenceUnitDraws(step, xs[..i], draw);
  }

  /** A sequence of calls that only upload images only uploads images. */
  lemma {:induction false} SequenceOnlyImages<X, T>(step: (X, nat) -> Run<T>, xs: seq<X>, draw: nat)
    requires forall x, d :: OnlyImages(step(x, d).log)
    ensures OnlyImages(Sequence(step, xs, draw).log)
    decreases |xs|
  {
    if |xs| > 0 {
      var n := |xs| - 1;
      SequenceOnlyImages(step, xs[..n], draw);
      var pre := Sequence(step, xs[..n], draw);
      if pre.result.Ok? {
        var last := step(xs[n], pre.draws);
        assert Sequence(step, xs, draw).log == pre.log + last.log;
        forall i | 0 <= i < |pre.log + last.log| ensures (pre.log + last.log)[i].ImageStored? {
          if i >= |pre.log| {
            assert (pre.log + last.log)[i] == last.log[i - |pre.log|];
          }
        }
      }
    }
  }

  // ---------------------------------------------------------------------------
  // The loops of the job

  /** `compress_image` as one call of a sequence. */
  function ImageStep(config: Config, oracles: Oracles): (string, nat) -> Run<string> {
    (url: string, draw: nat) =>
      var a := ImageRun(config, oracles, url, draw);
      Run(AttemptResult(config, a), draw + AttemptDraws(a), AttemptLog(a))
  }

  /** `[compress_image(url) for url in urls]`. */
  function CompressRun(config: Config, oracles: Oracles, urls: seq<string>, draw: nat): Run<seq<string>> {
    Sequence(ImageStep(config, oracles), urls, draw)
  }

  /** One pass of the row loop: the `IndexError` of `row[2]` on a short row,
      else the list over its comma-separated pieces, unstripped. */
  function RowStep(config: Config, oracles: Oracles): (seq<string>, nat) -> Run<seq<string>> {
    (row: seq<string>, draw: nat) =>
      if |row| < 3 then Run(Err(IndexErrorText), draw, [])
      else CompressRun(config, oracles, Split(row[2], ','), draw)
  }

  /** The `for row in csv_reader` loop over the data rows. */
  function RowsRun(config: Config, oracles: Oracles, rows: seq<seq<string>>, draw: nat): Run<seq<seq<string>>> {
    Sequence(RowStep(config, oracles), rows, draw)
  }

  /** One `compress_image` call as a step: it succeeds exactly when the image
      is uploaded, and then it has drawn one uuid. */
  lemma ImageStepOk(config: Config, oracles: Oracles)
    ensures forall url, d: nat :: ImageStep(config, oracles)(url, d).result.Ok? <==> ImageRun(config, oracles, url, d).Uploaded?
    ensures forall url, d: nat :: ImageStep(config, oracles)(url, d).result.Ok? ==> ImageStep(config, oracles)(url, d).draws == d + 1
  {
  }

  /** One more pass of the list comprehension. */
  lemma CompressRunStep(config: Config, oracles: Oracles, urls: seq<string>, draw: nat, j: nat)
    requires j < |urls| && CompressRun(config, oracles, urls[..j], draw).result.Ok?
    ensures var pre := CompressRun(config, oracles, urls[..j], draw);
      var a := ImageRun(config, oracles, urls[j], pre.draws);
      CompressRun(config, oracles, urls[..j + 1], draw) ==
        Extend(pre, Run(AttemptResult(config, a), pre.draws + AttemptDraws(a), AttemptLog(a)))
  {
    SequencePrefixStep(ImageStep(config, oracles), urls, draw, j);
  }

  /** Once a prefix of the URLs has failed, the rest is never tried. */
  lemma CompressRunStops(config: Config, oracles: Oracles, urls: seq<string>, draw: nat, m: nat)
    requires m <= |urls| && CompressRun(config, oracles, urls[..m], draw).result.Err?
    ensures CompressRun(config, oracles, urls, draw) == CompressRun(config, oracles, urls[..m], draw)
  {
    SequenceStops(ImageStep(config, oracles), urls, draw, m);
  }

  /** The list succeeds exactly when every image is uploaded, image j with
      draw `draw + j`, and then it has drawn one uuid per URL. */
  lemma CompressRunOk(config: Config, oracles: Oracles, urls: seq<string>, draw: nat)
    ensures CompressRun(config, oracles, urls, draw).result.Ok? <==>
      forall j :: 0 <= j < |urls| ==> ImageRun(config, oracles, urls[j], draw + j).Uploaded?
    ensures CompressRun(config, oracles, urls, draw).result.Ok? ==>
      CompressRun(config, oracles, urls, draw).draws == draw + |urls|
  {
    ImageStepOk(config, oracles);
    SequenceUnitDraws(ImageStep(config, oracles), urls, draw);
  }

  /** When the list succeeds, URL j of the result is the public URL of the
      image fetched from `urls[j]` with draw `draw + j`, and its upload is in
      the log. */
  lemma CompressRunOutputs(config: Config, oracles: Oracles, urls: seq<string>, draw: nat, j: nat)
    requires CompressRun(config, oracles, urls, draw).result.Ok?
    requires j < |urls|
    ensures var run := CompressRun(config, oracles, urls, draw);
      var a := ImageRun(config, oracles, urls[j], draw + j);
      && a.Uploaded?
      && run.result.value[j] == PublicUrl(config.imageBucket, config.region, a.key)
      && a.image.source == urls[j]
      && ImageStored(a.key, a.image) in run.log
  {
    var step := ImageStep(config, oracles);
    ImageStepOk(config, oracles);
    SequenceUnitStep(step, urls, draw, j);
    var a := ImageRun(config, oracles, urls[j], draw + j);
    var s := step(urls[j], draw + j);
    assert s == Run(AttemptResult(config, a), draw + j + AttemptDraws(a), AttemptLog(a));
    assert a.Uploaded?;
    ImageRunFacts(config, oracles, urls[j], draw + j);
    assert s.log == [ImageStored(a.key, a.image)];
  }

  /** The first image that is not uploaded stops the list with its own
      exception text. */
  lemma CompressRunFirstFailure(config: Config, oracles: Oracles, urls: seq<string>, draw: nat, k: nat)
    requires k < |urls|
    requires forall j :: 0 <= j < k ==> ImageRun(config, oracles, urls[j], draw + j).Uploaded?
    requires !ImageRun(config, oracles, urls[k], draw + k).Uploaded?
    ensures CompressRun(config, oracles, urls, draw).result ==
      Err(AttemptResult(config, ImageRun(config, oracles, urls[k], draw + k)).reason)
  {
    ImageStepOk(config, oracles);
    SequenceUnitFirstFailure(ImageStep(config, oracles), urls, draw, k);
  }

  /** One more pass of the row loop. */
  lemma RowsRunStep(config: Config, oracles: Oracles, rows: seq<seq<string>>, draw: nat, i: nat)
    requires i < |rows| && RowsRun(config, oracles, rows[..i], draw).result.Ok?
    ensures var pre := RowsRun(config, oracles, rows[..i], draw);
      RowsRun(config, oracles, rows[..i + 1], draw) ==
        Extend(pre,
          if |rows[i]| < 3 then Run(Err(IndexErrorText), pre.draws, [])
          else CompressRun(config, oracles, Split(rows[i][2], ','), pre.draws))
  {
    SequencePrefixStep(RowStep(config, oracles), rows, draw, i);
  }

  /** Once a prefix of the rows has failed, the rest is never tried. */
  lemma RowsRunStops(config: Config, oracles: Oracles, rows: seq<seq<string>>, draw: nat, m: nat)
    requires m <= |rows| && RowsRun(config, oracles, rows[..m], draw).result.Err?
    ensures RowsRun(config, oracles, rows, draw) == RowsRun(config, oracles, rows[..m], draw)
  {
    SequenceStops(RowStep(config, oracles), rows, draw, m);
  }

  /** Pass i of the row loop, after the passes before it. */
  lemma RowStepAt(config: Config, oracles: Oracles, rows: seq<seq<string>>, draw: nat, i: nat)
    requires i < |rows|
    ensures var d := RowsRun(config, oracles, rows[..i], draw).draws;
      StepAt(RowStep(config, oracles), rows, draw, i) ==
        if |rows[i]| < 3 then Run(Err(IndexErrorText), d, [])
        else CompressRun(config, oracles, Split(rows[i][2], ','), d)
  {
  }

  /** The loop succeeds exactly when every row has a third field and its list
      succeeds. */
  lemma RowsRunOk(config: Config, oracles: Oracles, rows: seq<seq<string>>, draw: nat)
    ensures RowsRun(config, oracles, rows, draw).result.Ok? <==>
      forall i :: 0 <= i < |rows| ==>
        && |rows[i]| >= 3
        && CompressRun(config, oracles, Split(rows[i][2], ','), RowsRun(config, oracles, rows[..i], draw).draws).result.Ok?
  {
    SequenceOk(RowStep(config, oracles), rows, draw);
    forall i | 0 <= i < |rows|
      ensures StepAt(RowStep(config, oracles), rows, draw, i).result.Ok? <==>
        && |rows[i]| >= 3
        && CompressRun(config, oracles, Split(rows[i][2], ','), RowsRun(config, oracles, rows[..i], draw).draws).result.Ok?
    {
      RowStepAt(config, oracles, rows, draw, i);
    }
  }

  /** URL j of output list i is the public URL of the image fetched from
      piece j of row i, and that upload is in the loop's log. */
  lemma RowsRunOutputs(config: Config, oracles: Oracles, rows: seq<seq<string>>, draw: nat, i: nat, j: nat)
    requires RowsRun(config, oracles, rows, draw).result.Ok?
    requires i < |rows|
    ensures |rows[i]| >= 3
    ensures var run := RowsRun(config, oracles, rows, draw);
      && |run.result.value[i]| == |Split(rows[i][2], ',')|
      && (j < |Split(rows[i][2], ',')| ==>
            exists d: nat ::
              var a := ImageRun(config, oracles, Split(rows[i][2], ',')[j], d);
              && a.Uploaded?
              && run.result.value[i][j] == PublicUrl(config.imageBucket, config.region, a.key)
              && a.image.source == Split(rows[i][2], ',')[j]
              && ImageStored(a.key, a.image) in run.log)
  {
    var step := RowStep(config, oracles);
    SequenceValues(step, rows, draw, i);
    SequenceLogged(step, rows, draw, i);
    RowStepAt(config, oracles, rows, draw, i);
    var d0 := RowsRun(config, oracles, rows[..i], draw).draws;
    var pieces := Split(rows[i][2], ',');
    if j < |pieces| {
      CompressRunOutputs(config, oracles, pieces, d0, j);
      var d: nat := d0 + j;
      var a := ImageRun(config, oracles, pieces[j], d);
      assert ImageStored(a.key, a.image) in RowsRun(config, oracles, rows, draw).log;
    }
  }

  lemma InLaterLog(a: seq<Event>, b: seq<Event>, log: seq<Event>, e: Event)
    requires e in b && a + b <= log
    ensures e in log
  {
    var k :| 0 <= k < |b| && b[k] == e;
    assert (a + b)[|a| + k] == e;
    assert log[|a| + k] == e;
  }

  /** A short row stops the loop with `IndexError` once the rows before it
      succeeded. */
  lemma RowsRunShortRow(config: Config, oracles: Oracles, rows: seq<seq<string>>, draw: nat, k: nat)
    requires k < |rows| && |rows[k]| < 3
    requires RowsRun(config, oracles, rows[..k], draw).result.Ok?
    ensures RowsRun(config, oracles, rows, draw).result == Err(IndexErrorText)
  {
    SequenceFirstFailure(RowStep(config, oracles), rows, draw, k);
  }

  /** A row whose list fails stops the loop with that list's exception text
      once the rows before it succeeded. */
  lemma RowsRunImageFailure(config: Config, oracles: Oracles, rows: seq<seq<string>>, draw: nat, k: nat)
    requires k < |rows| && |rows[k]| >= 3
    requires RowsRun(config, oracles, rows[..k], draw).result.Ok?
    requires CompressRun(config, oracles, Split(rows[k][2], ','), RowsRun(config, oracles, rows[..k], draw).draws).result.Err?
    ensures RowsRun(config, oracles, rows, draw).result ==
      Err(CompressRun(config, oracles, Split(rows[k][2], ','), RowsRun(config, oracles, rows[..k], draw).draws).result.reason)
  {
    SequenceFirstFailure(RowStep(config, oracles), rows, draw, k);
  }

  /** The job's loops upload images and write nothing else. */
  lemma RowsRunOnlyImages(config: Config, oracles: Oracles, rows: seq<seq<string>>, draw: nat)
    ensures OnlyImages(RowsRun(config, oracles, rows, draw).log)
  {
    var image := ImageStep(config, oracles);
    var row := RowStep(config, oracles);
    forall url, d ensures OnlyImages(image(url, d).log) {}
    forall r, d ensures OnlyImages(row(r, d).log) {
      if |r| >= 3 {
        SequenceOnlyImages(image, Split(r[2], ','), d);
      }
    }
    SequenceOnlyImages(row, rows, draw);
  }

  /** The header line and the row loop over a document read back: an empty
      document raises `StopIteration`. */
  function DocRun(config: Config, oracles: Oracles, rows: seq<seq<string>>, draw: nat): (run: Run<seq<seq<string>>>)
    ensures run.result.Ok? ==> |rows| >= 1 && |run.result.value| == |rows| - 1
    ensures OnlyImages(run.log)
  {
    if |rows| == 0 then Run(Err(StopIterationText), draw, [])
    else RowsRunOnlyImages(config, oracles, rows[1..], draw); RowsRun(config, oracles, rows[1..], draw)
  }

  // ---------------------------------------------------------------------------
  // The job

  /** How the body of `process_file` ended: normally, or with the text of the
      exception that left it. `replacedWith` holds the output lists when the
      result document had already been uploaded. */
  datatype BodyResult =
    | Done(outputs: seq<seq<string>>)
    | Raised(reason: string, replacedWith: Option<seq<seq<string>>>)

  /** The document `process_file` uploads for the rows read back and the
      output lists of its loop. */
  function ResultObject(rows: seq<seq<string>>, outputs: seq<seq<string>>): CsvObject
    requires |rows| >= 1 && |outputs| == |rows| - 1
  {
    CsvObject(EnrichedDoc(rows[0], rows[1..], outputs), "text/csv", None)
  }

  /** How the job ends once its loop produced `outputs`: the upload of the
      result `obj`, then the completed status. */
  function PublishEnd(oracles: Oracles, id: string, outputs: seq<seq<string>>, obj: CsvObject): BodyResult {
    match oracles.putCsvError(CsvKey(id), obj)
    case Some(e) => Raised(ExceptionText(CsvUploadError(e)), None)
    case None =>
      match oracles.putItemError(id, StatusCompleted)
      case Some(e) => Raised(ExceptionText(DbWriteError(e)), Some(outputs))
      case None => Done(outputs)
  }

  /** The side effects of that end, as far as it got. */
  function PublishTail(oracles: Oracles, id: string, obj: CsvObject): seq<Event> {
    if oracles.putCsvError(CsvKey(id), obj).Some? then []
    else if oracles.putItemError(id, StatusCompleted).Some? then [CsvStored(CsvKey(id))]
    else [CsvStored(CsvKey(id)), StatusWritten(id, StatusCompleted)]
  }

  /** The enrichment of the rows read back, the upload of the result and the
      completed status. */
  function PublishRun(config: Config, oracles: Oracles, id: string, rows: seq<seq<string>>, draw: nat): BodyResult {
    var run := DocRun(config, oracles, rows, draw);
    if run.result.Err? then Raised(run.result.reason, None)
    else PublishEnd(oracles, id, run.result.value, ResultObject(rows, run.result.value))
  }

  /** The body after its in-progress status, given what `read_from_s3`
      returns or raises. */
  function StartedRun(config: Config, oracles: Oracles, id: string, read: Result<Doc>, draw: nat): BodyResult {
    if read.Err? then Raised(read.reason, None)
    else PublishRun(config, oracles, id, ReadBack(read.value), draw)
  }

  /** The `try` block of `process_file`, given what `read_from_s3` returns or
      raises and the next uuid draw. */
  function BodyRun(config: Config, oracles: Oracles, id: string, read: Result<Doc>, draw: nat): BodyResult {
    match oracles.putItemError(id, StatusInProgress)
    case Some(e) => Raised(ExceptionText(DbWriteError(e)), None)
    case None => StartedRun(config, oracles, id, read, draw)
  }

  /** The uuid draw counter after a part of the job, and the side effects it
      had, in order. */
  datatype Effects = Effects(draws: nat, log: seq<Event>)

  /** The effects of the row loop, the upload of the result and the completed
      status, as far as they got. */
  function PublishEffects(config: Config, oracles: Oracles, id: string, rows: seq<seq<string>>, draw: nat): Effects {
    var run := DocRun(config, oracles, rows, draw);
    if run.result.Err? then Effects(run.draws, run.log)
    else Effects(run.draws, run.log + PublishTail(oracles, id, ResultObject(rows, run.result.value)))
  }

  /** The effects of the job after its in-progress status. */
  function StartedEffects(config: Config, oracles: Oracles, id: string, read: Result<Doc>, draw: nat): Effects {
    if read.Err? then Effects(draw, [])
    else PublishEffects(config, oracles, id, ReadBack(read.value), draw)
  }

  /** The effects of the `try` block of `process_file`. */
  function BodyEffects(config: Config, oracles: Oracles, id: string, read: Result<Doc>, draw: nat): Effects {
    if oracles.putItemError(id, StatusInProgress).Some? then Effects(draw, [])
    else
      var rest := StartedEffects(config, oracles, id, read, draw);
      Effects(rest.draws, [StatusWritten(id, StatusInProgress)] + rest.log)
  }

  /** The effects of `process_file`: the body's, then the failure status when
      an exception left the body and that write succeeds. */
  function JobEffects(config: Config, oracles: Oracles, id: string, read: Result<Doc>, draw: nat): Effects {
    var body := BodyEffects(config, oracles, id, read, draw);
    match BodyRun(config, oracles, id, read, draw)
    case Done(_) => body
    case Raised(reason, _) =>
      if oracles.putItemError(id, StatusFailed(reason)).Some? then body
      else Effects(body.draws, body.log + [StatusWritten(id, StatusFailed(reason))])
  }

  /** The statuses the publishing part writes: the completed status exactly
      when it ends normally. */
  lemma PublishStatuses(config: Config, oracles: Oracles, id: string, rows: seq<seq<string>>, draw: nat)
    ensures Statuses(PublishEffects(config, oracles, id, rows, draw).log, id) ==
      if PublishRun(config, oracles, id, rows, draw).Done? then [StatusCompleted] else []
  {
    var run := DocRun(config, oracles, rows, draw);
    StatusesOfImages(run.log, id);
    if run.result.Ok? {
      var obj := ResultObject(rows, run.result.value);
      StatusesAppend(run.log, PublishTail(oracles, id, obj), id);
      TailStatuses(oracles, id, run.result.value, obj);
    }
  }

  /** The end of the job writes the completed status exactly when it ends
      normally. */
  lemma TailStatuses(oracles: Oracles, id: string, outputs: seq<seq<string>>, obj: CsvObject)
    ensures Statuses(PublishTail(oracles, id, obj), id) ==
      if PublishEnd(oracles, id, outputs, obj).Done? then [StatusCompleted] else []
  {
    var stored: seq<Event> := [CsvStored(CsvKey(id))];
    var completed: seq<Event> := [CsvStored(CsvKey(id)), StatusWritten(id, StatusCompleted)];
    assert Statuses(stored, id) == [] by {
      assert stored[1..] == [];
    }
    assert Statuses(completed, id) == [StatusCompleted] by {
      assert completed[1..] == [StatusWritten(id, StatusCompleted)];
      StatusOfOne(id, StatusCompleted);
    }
  }

  /** The statuses the job writes after its in-progress status. */
  lemma StartedStatuses(config: Config, oracles: Oracles, id: string, read: Result<Doc>, draw: nat)
    ensures Statuses(StartedEffects(config, oracles, id, read, draw).log, id) ==
      if StartedRun(config, oracles, id, read, draw).Done? then [StatusCompleted] else []
  {
    if read.Ok? {
      PublishStatuses(config, oracles, id, ReadBack(read.value), draw);
    }
  }

  /** The statuses the `try` block writes: in progress once that write
      succeeds, then completed when it ends normally. */
  lemma BodyStatuses(config: Config, oracles: Oracles, id: string, read: Result<Doc>, draw: nat)
    ensures Statuses(BodyEffects(config, oracles, id, read, draw).log, id) ==
      (if oracles.putItemError(id, StatusInProgress).None? then [StatusInProgress] else [])
      + (if BodyRun(config, oracles, id, read, draw).Done? then [StatusCompleted] else [])
  {
    if oracles.putItemError(id, StatusInProgress).None? {
      var rest := StartedEffects(config, oracles, id, read, draw);
      StartedStatuses(config, oracles, id, read, draw);
      StatusesAppend([StatusWritten(id, StatusInProgress)], rest.log, id);
      StatusOfOne(id, StatusInProgress);
    }
  }

  /** The statuses `process_file` writes: in progress once that write
      succeeds, then completed, or the failure status naming the exception
      when that write succeeds. */
  lemma JobStatuses(config: Config, oracles: Oracles, id: string, read: Result<Doc>, draw: nat)
    ensures var res := BodyRun(config, oracles, id, read, draw);
      Statuses(JobEffects(config, oracles, id, read, draw).log, id) ==
        (if oracles.putItemError(id, StatusInProgress).None? then [StatusInProgress] else [])
        + (if res.Done? then [StatusCompleted]
           else if oracles.putItemError(id, StatusFailed(res.reason)).None? then [StatusFailed(res.reason)]
           else [])
  {
    var res := BodyRun(config, oracles, id, read, draw);
    var body := BodyEffects(config, oracles, id, read, draw);
    BodyStatuses(config, oracles, id, read, draw);
    if res.Raised? && oracles.putItemError(id, StatusFailed(res.reason)).None? {
      StatusesAppend(body.log, [StatusWritten(id, StatusFailed(res.reason))], id);
      StatusOfOne(id, StatusFailed(res.reason));
    }
  }

  /** Each event is a status of request `id`, the document of request `id`
      or an image upload. */
  ghost predicate OwnEffects(id: string, log: seq<Event>) {
    forall i :: 0 <= i < |log| ==>
      || (log[i].StatusWritten? && log[i].id == id)
      || log[i] == CsvStored(CsvKey(id))
      || log[i].ImageStored?
  }

  /** `process_file` writes nothing but statuses of its own request, its own
      result document and image uploads; its draws never go back. */
  lemma JobOwnEffects(config: Config, oracles: Oracles, id: string, read: Result<Doc>, draw: nat)
    ensures OwnEffects(id, JobEffects(config, oracles, id, read, draw).log)
    ensures JobEffects(config, oracles, id, read, draw).draws >= draw
  {
    if read.Ok? {
      var rows := ReadBack(read.value);
      var run := DocRun(config, oracles, rows, draw);
      DocRunDraws(config, oracles, rows, draw);
      if run.result.Ok? {
        OwnEffectsAppend(id, run.log, PublishTail(oracles, id, ResultObject(rows, run.result.value)));
      }
      OwnEffectsAppend(id, [StatusWritten(id, StatusInProgress)], PublishEffects(config, oracles, id, rows, draw).log);
    }
    var body := BodyEffects(config, oracles, id, read, draw);
    var res := BodyRun(config, oracles, id, read, draw);
    if res.Raised? {
      OwnEffectsAppend(id, body.log, [StatusWritten(id, StatusFailed(res.reason))]);
    }
  }

  lemma OwnEffectsAppend(id: string, a: seq<Event>, b: seq<Event>)
    requires OwnEffects(id, a) && OwnEffects(id, b)
    ensures OwnEffects(id, a + b)
  {
    forall i | 0 <= i < |a + b|
      ensures var e := (a + b)[i]; (e.StatusWritten? && e.id == id) || e == CsvStored(CsvKey(id)) || e.ImageStored?
    {
      if i >= |a| {
        assert (a + b)[i] == b[i - |a|];
      }
    }
  }

  /** The row loop never turns the draw counter back. */
  lemma DocRunDraws(config: Config, oracles: Oracles, rows: seq<seq<string>>, draw: nat)
    ensures DocRun(config, oracles, rows, draw).draws >= draw
  {
    if |rows| > 0 {
      var image := ImageStep(config, oracles);
      var row := RowStep(config, oracles);
      forall url, d: nat ensures image(url, d).draws >= d {}
      forall r, d: nat ensures row(r, d).draws >= d {
        if |r| >= 3 {
          SequenceDraws(image, Split(r[2], ','), d);
        }
      }
      SequenceDraws(row, rows[1..], draw);
    }
  }

  /** A loop whose calls never turn the draw counter back never does either. */
  lemma {:induction false} SequenceDraws<X, T>(step: (X, nat) -> Run<T>, xs: seq<X>, draw: nat)
    requires forall x, d: nat :: step(x, d).draws >= d
    ensures Sequence(step, xs, draw).draws >= draw
    decreases |xs|
  {
    if |xs| > 0 {
      SequenceDraws(step, xs[..|xs| - 1], draw);
    }
  }

  /** Every image can be fetched, decoded, encoded and stored. */
  ghost predicate ImagesSucceed(oracles: Oracles) {
    && (forall url :: oracles.openImage(url).Decoded?)
    && (forall url, options :: oracles.encodeError(url, options).None?)
    && (forall key, image :: oracles.putImageError(key, image).None?)
  }

  /** A sequence whose every call succeeds, whatever the draw, succeeds. */
  lemma SequenceSucceeds<X, T>(step: (X, nat) -> Run<T>, xs: seq<X>, draw: nat)
    requires forall i, d: nat :: 0 <= i < |xs| ==> step(xs[i], d).result.Ok?
    ensures Sequence(step, xs, draw).result.Ok?
  {
    SequenceOk(step, xs, draw);
  }

  /** When every image succeeds, the loop succeeds on rows that all have a
      third field. */
  lemma RowsRunSucceeds(config: Config, oracles: Oracles, rows: seq<seq<string>>, draw: nat)
    requires ImagesSucceed(oracles)
    requires forall i :: 0 <= i < |rows| ==> |rows[i]| >= 3
    ensures RowsRun(config, oracles, rows, draw).result.Ok?
  {
    var image := ImageStep(config, oracles);
    var row := RowStep(config, oracles);
    forall i, d: nat | 0 <= i < |rows| ensures row(rows[i], d).result.Ok? {
      var urls := Split(rows[i][2], ',');
      forall j, d': nat | 0 <= j < |urls| ensures image(urls[j], d').result.Ok? {
        assert ImageRun(config, oracles, urls[j], d').Uploaded?;
      }
      SequenceSucceeds(image, urls, d);
    }
    SequenceSucceeds(row, rows, draw);
  }

  /** Once the row loop succeeds, the job completes when the upload of the
      result and the completed status succeed. */
  lemma PublishCompletes(config: Config, oracles: Oracles, id: string, rows: seq<seq<string>>, draw: nat)
    requires forall obj :: oracles.putCsvError(CsvKey(id), obj).None?
    requires oracles.putItemError(id, StatusCompleted).None?
    requires |rows| >= 1 && RowsRun(config, oracles, rows[1..], draw).result.Ok?
    ensures PublishRun(config, oracles, id, rows, draw) == Done(RowsRun(config, oracles, rows[1..], draw).result.value)
  {
  }

  /** When every outside call succeeds, a document whose data rows all have a
      third field is processed to the end. */
  lemma JobCompletes(config: Config, oracles: Oracles, id: string, doc: Doc, draw: nat)
    requires forall status :: oracles.putItemError(id, status).None?
    requires forall obj :: oracles.putCsvError(CsvKey(id), obj).None?
    requires ImagesSucceed(oracles)
    requires |ReadBack(doc)| >= 1
    requires forall i :: 1 <= i < |ReadBack(doc)| ==> |ReadBack(doc)[i]| >= 3
    ensures BodyRun(config, oracles, id, Ok(doc), draw).Done?
  {
    var rows := ReadBack(doc);
    assert forall i :: 0 <= i < |rows[1..]| ==> rows[1..][i] == rows[i + 1];
    RowsRunSucceeds(config, oracles, rows[1..], draw);
    PublishCompletes(config, oracles, id, rows, draw);
  }

  /** The first short data row fails the job with `IndexError`'s text. */
  lemma ShortRowFailsJob(config: Config, oracles: Oracles, id: string, doc: Doc, draw: nat, k: nat)
    requires oracles.putItemError(id, StatusInProgress).None?
    requires 1 <= k < |ReadBack(doc)| && |ReadBack(doc)[k]| < 3
    requires RowsRun(config, oracles, ReadBack(doc)[1..k], draw).result.Ok?
    ensures BodyRun(config, oracles, id, Ok(doc), draw) == Raised(IndexErrorText, None)
  {
    var rows := ReadBack(doc);
    var data := rows[1..];
    assert data[..k - 1] == rows[1..k] && data[k - 1] == rows[k];
    RowsRunShortRow(config, oracles, data, draw, k - 1);
  }

  /** A data row whose list of images fails, after the rows before it
      succeeded, fails the job with the exception text of that list. */
  lemma ImageFailureFailsJob(config: Config, oracles: Oracles, id: string, doc: Doc, draw: nat, k: nat)
    requires oracles.putItemError(id, StatusInProgress).None?
    requires 1 <= k < |ReadBack(doc)| && |ReadBack(doc)[k]| >= 3
    requires RowsRun(config, oracles, ReadBack(doc)[1..k], draw).result.Ok?
    requires CompressRun(config, oracles, Split(ReadBack(doc)[k][2], ','),
      RowsRun(config, oracles, ReadBack(doc)[1..k], draw).draws).result.Err?
    ensures BodyRun(config, oracles, id, Ok(doc), draw) == Raised(
      CompressRun(config, oracles, Split(ReadBack(doc)[k][2], ','),
        RowsRun(config, oracles, ReadBack(doc)[1..k], draw).draws).result.reason, None)
  {
    var rows := ReadBack(doc);
    var data := rows[1..];
    assert data[..k - 1] == rows[1..k] && data[k - 1] == rows[k];
    RowsRunImageFailure(config, oracles, data, draw, k - 1);
  }
}
