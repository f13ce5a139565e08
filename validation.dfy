/** The upload validator `validate_csv` (main.py:225-267), over rows already
    parsed by the CSV reader. It reports the first violation, in the order the
    source checks them. */
module Validation {
  import opened Results
  import opened Text
  import opened ImageUrls

  /** One kind per `raise` of the validator. `TooManyValues` is not raised by
      the validator itself: it is the `ValueError` of the three-way unpack
      `sno, product_name, image_urls = row` on a row with more than three
      fields. */
  datatype ValidationError =
    | EmptyFile
    | InvalidHeaders(allowed: seq<string>)
    | InsufficientColumns(row: seq<string>)
    | TooManyValues(row: seq<string>)
    | InvalidSerialNumber(sno: string)
    | InvalidProductName(name: string, sno: string)
    | InvalidImageUrls(urls: string, sno: string)

  /** The errors that belong to one data row. */
  predicate IsRowError(e: ValidationError) {
    !e.EmptyFile? && !e.InvalidHeaders?
  }

  predicate IsNameChar(c: char) {
    IsAsciiLetter(c) || IsAsciiDigit(c) || c == ' '
  }

  predicate AllNameChars(s: string) {
    forall i :: 0 <= i < |s| ==> IsNameChar(s[i])
  }

  /** `is_alphanumeric_with_spaces`: the pattern `^[a-zA-Z0-9 ]*$`, whose `$`
      also matches just before one final newline. The empty name passes. */
  predicate IsAlphanumericWithSpaces(s: string) {
    AllNameChars(s) || (|s| > 0 && s[|s| - 1] == '\n' && AllNameChars(s[..|s| - 1]))
  }

  /** Character by character: every character is a letter, a digit or a
      space, except that the last one may be a newline. */
  lemma NameCharsIff(s: string)
    ensures IsAlphanumericWithSpaces(s) <==>
      forall i :: 0 <= i < |s| ==> IsNameChar(s[i]) || (i == |s| - 1 && s[i] == '\n')
  {
    if forall i :: 0 <= i < |s| ==> IsNameChar(s[i]) || (i == |s| - 1 && s[i] == '\n') {
      if !AllNameChars(s) {
        var n := |s| - 1;
        assert forall i :: 0 <= i < n ==> s[..n][i] == s[i] && IsNameChar(s[i]);
        assert !IsNameChar(s[n]);
      }
    }
    if IsAlphanumericWithSpaces(s) && !AllNameChars(s) {
      var n := |s| - 1;
      assert forall i :: 0 <= i < n ==> s[..n][i] == s[i];
    }
  }

  /** `all(is_valid_image_url(url.strip()) for url in urls)`, stopping at the
      first URL that fails. */
  predicate AllValidUrls(urls: seq<string>) {
    |urls| == 0 || (IsValidImageUrl(Strip(urls[0])) && AllValidUrls(urls[1..]))
  }

  lemma {:induction false} AllValidUrlsIff(urls: seq<string>)
    ensures AllValidUrls(urls) <==> forall i :: 0 <= i < |urls| ==> IsValidImageUrl(Strip(urls[i]))
  {
    if |urls| > 0 {
      var rest := urls[1..];
      AllValidUrlsIff(rest);
      if AllValidUrls(urls) {
        forall i | 0 <= i < |urls| ensures IsValidImageUrl(Strip(urls[i])) {
          if i > 0 {
            assert urls[i] == rest[i - 1];
          }
        }
      }
      if forall i :: 0 <= i < |urls| ==> IsValidImageUrl(Strip(urls[i])) {
        forall j | 0 <= j < |rest| ensures IsValidImageUrl(Strip(rest[j])) {
          assert rest[j] == urls[j + 1];
        }
      }
    }
  }

  /** A data row every check accepts: exactly three fields, a digit-only serial
      number, a name of letters, digits and spaces, and a comma-separated URL
      list each of whose stripped pieces is an image URL. */
  predicate RowIsValid(row: seq<string>) {
    && |row| == 3
    && IsDigits(row[0])
    && IsAlphanumericWithSpaces(row[1])
    && forall i :: 0 <= i < |Split(row[2], ',')| ==> IsValidImageUrl(Strip(Split(row[2], ',')[i]))
  }

  /** The checks of one data row, in the source's order; each error is reported
      only when every earlier check of the row passed. */
  function CheckRow(row: seq<string>): (r: Option<ValidationError>)
    ensures r.None? <==> RowIsValid(row)
    ensures r.Some? ==> IsRowError(r.value)
    ensures r == Some(InsufficientColumns(row)) <==> |row| < 3
    ensures r == Some(TooManyValues(row)) <==> |row| > 3
    ensures r.Some? && r.value.InvalidSerialNumber? <==> |row| == 3 && !IsDigits(row[0])
    ensures r.Some? && r.value.InvalidProductName? <==>
      |row| == 3 && IsDigits(row[0]) && !IsAlphanumericWithSpaces(row[1])
    ensures r.Some? && r.value.InvalidImageUrls? <==>
      |row| == 3 && IsDigits(row[0]) && IsAlphanumericWithSpaces(row[1]) && !RowIsValid(row)
    ensures r.Some? && !r.value.InsufficientColumns? && !r.value.TooManyValues? ==> r.value.sno == row[0]
  {
    if |row| < 3 then Some(InsufficientColumns(row))
    else if |row| > 3 then Some(TooManyValues(row))
    else if !IsDigits(row[0]) then Some(InvalidSerialNumber(row[0]))
    else if !IsAlphanumericWithSpaces(row[1]) then Some(InvalidProductName(row[1], row[0]))
    else
      AllValidUrlsIff(Split(row[2], ','));
      if !AllValidUrls(Split(row[2], ',')) then Some(InvalidImageUrls(row[2], row[0]))
      else None
  }

  /** The loop over data rows: the first row that fails decides. */
  function ValidateRows(rows: seq<seq<string>>): (r: Outcome<ValidationError>)
    ensures r.Fail? ==> IsRowError(r.error)
  {
    if |rows| == 0 then Pass
    else match CheckRow(rows[0])
      case Some(e) => Fail(e)
      case None => ValidateRows(rows[1..])
  }

  /** `validate_csv`: fewer than two rows is an empty file; then the header row
      must equal the configured headers exactly and in order; then each data
      row is checked. */
  function ValidateCsv(rows: seq<seq<string>>, validHeaders: seq<string>): (r: Outcome<ValidationError>)
    ensures r == Fail(EmptyFile) <==> |rows| <= 1
    ensures |rows| >= 2 ==> (r == Fail(InvalidHeaders(validHeaders)) <==> rows[0] != validHeaders)
    ensures r.Fail? && r.error.InvalidHeaders? ==> r.error.allowed == validHeaders && rows[0] != validHeaders
  {
    if |rows| <= 1 then Fail(EmptyFile)
    else if rows[0] != validHeaders then Fail(InvalidHeaders(validHeaders))
    else ValidateRows(rows[1..])
  }

  /** The rows pass exactly when every one of them passes its own checks. */
  lemma {:induction false} ValidateRowsPassIff(rows: seq<seq<string>>)
    ensures ValidateRows(rows) == Pass <==> forall i :: 0 <= i < |rows| ==> RowIsValid(rows[i])
  {
    if |rows| > 0 {
      var rest := rows[1..];
      ValidateRowsPassIff(rest);
      assert ValidateRows(rows) == Pass <==> CheckRow(rows[0]).None? && ValidateRows(rest) == Pass;
      if ValidateRows(rows) == Pass {
        forall i | 0 <= i < |rows| ensures RowIsValid(rows[i]) {
          if i > 0 {
            assert rows[i] == rest[i - 1];
          }
        }
      }
      if forall i :: 0 <= i < |rows| ==> RowIsValid(rows[i]) {
        forall j | 0 <= j < |rest| ensures RowIsValid(rest[j]) {
          assert rest[j] == rows[j + 1];
        }
      }
    }
  }

  /** The first offending row decides the outcome, with the error of that row. */
  lemma {:induction false} FirstOffendingRowDecides(rows: seq<seq<string>>, k: nat)
    requires k < |rows|
    requires forall j :: 0 <= j < k ==> RowIsValid(rows[j])
    requires !RowIsValid(rows[k])
    ensures ValidateRows(rows) == Fail(CheckRow(rows[k]).value)
  {
    if k > 0 {
      assert RowIsValid(rows[0]);
      assert forall j :: 0 <= j < k - 1 ==> rows[1..][j] == rows[j + 1];
      FirstOffendingRowDecides(rows[1..], k - 1);
    }
  }

  /** Once a row fails, no later row is examined: replacing everything after it
      changes nothing. */
  lemma LaterRowsNotExamined(rows: seq<seq<string>>, k: nat, later: seq<seq<string>>)
    requires k < |rows|
    requires forall j :: 0 <= j < k ==> RowIsValid(rows[j])
    requires !RowIsValid(rows[k])
    ensures ValidateRows(rows[..k + 1] + later) == ValidateRows(rows)
  {
    var other := rows[..k + 1] + later;
    assert forall j :: 0 <= j <= k ==> other[j] == rows[j];
    FirstOffendingRowDecides(rows, k);
    FirstOffendingRowDecides(other, k);
  }

  /** A whole file passes exactly when it has a header and at least one data
      row, the header is the configured one, and every data row is valid. */
  lemma ValidateCsvPassIff(rows: seq<seq<string>>, validHeaders: seq<string>)
    ensures ValidateCsv(rows, validHeaders) == Pass <==>
      && |rows| >= 2
      && rows[0] == validHeaders
      && forall i :: 1 <= i < |rows| ==> RowIsValid(rows[i])
  {
    if |rows| >= 2 {
      var data := rows[1..];
      ValidateRowsPassIff(data);
      if ValidateCsv(rows, validHeaders) == Pass {
        forall i | 1 <= i < |rows| ensures RowIsValid(rows[i]) {
          assert rows[i] == data[i - 1];
        }
      }
      if forall i :: 1 <= i < |rows| ==> RowIsValid(rows[i]) {
        forall j | 0 <= j < |data| ensures RowIsValid(data[j]) {
          assert data[j] == rows[j + 1];
        }
      }
    }
  }

  /** Every data row of an accepted file has exactly three fields, so the
      pipeline's `row[2]` exists for every row it later reads back. */
  lemma AcceptedRowsHaveThreeFields(rows: seq<seq<string>>, validHeaders: seq<string>, i: nat)
    requires ValidateCsv(rows, validHeaders) == Pass
    requires 1 <= i < |rows|
    ensures |rows[i]| == 3
  {
    ValidateCsvPassIff(rows, validHeaders);
  }

  /** Two URLs joined by ", " split into the first URL and the second one
      with its leading space. */
  lemma PaddedPieces(u: string, v: string)
    requires ',' !in u && ',' !in v
    ensures Split(u + ", " + v, ',') == [u, " " + v]
  {
    var padded := " " + v;
    assert u + ", " + v == u + [','] + padded;
    assert ',' !in padded by {
      assert forall k :: 1 <= k < |padded| ==> padded[k] == v[k - 1];
    }
    SplitPair(u, padded, ',');
  }

  /** Validation strips each URL piece: two image URLs joined by ", " make a
      valid row. */
  lemma PaddedPieceAccepted(sno: string, name: string, u: string, v: string)
    requires IsDigits(sno) && AllNameChars(name)
    requires IsValidImageUrl(u) && Strip(u) == u && ',' !in u
    requires IsValidImageUrl(v) && Strip(v) == v && ',' !in v
    ensures RowIsValid([sno, name, u + ", " + v])
  {
    var field := u + ", " + v;
    PaddedPieces(u, v);
    var pieces := Split(field, ',');
    NoLeadingSpace(v);
    StripPadded(v);
    forall i | 0 <= i < |pieces| ensures IsValidImageUrl(Strip(pieces[i])) {
      assert i == 0 || i == 1;
    }
    var row := [sno, name, field];
    assert row[0] == sno && row[1] == name && row[2] == field;
    assert IsAlphanumericWithSpaces(name);
  }

  /** The job does not strip: a piece that starts with a space, as the
      second piece of such a row does, is not an image URL. */
  lemma PaddedPieceRejected(v: string)
    ensures !IsValidImageUrl(" " + v)
  {
    if IsValidImageUrl(" " + v) {
      NoLeadingSpace(" " + v);
    }
  }
}
