/** The CSV documents the pipeline reads and writes. A stored document keeps
    the structure `process_file` builds (main.py:115-124): a field is a string
    or, for the appended column and the double-wrapped header, a list of
    strings. */
module Documents {
  import opened Text

  datatype Field = Str(value: string) | StrList(items: seq<string>)

  type Row = seq<Field>
  type Doc = seq<Row>

  /** The column name appended to the header. */
  const OutputHeader := "Output Image Urls"

  function PlainRow(row: seq<string>): (r: Row)
    ensures |r| == |row| && forall i :: 0 <= i < |row| ==> r[i] == Str(row[i])
  {
    seq(|row|, i requires 0 <= i < |row| => Str(row[i]))
  }

  /** A document of plain string fields, as uploaded. */
  function Plain(rows: seq<seq<string>>): (d: Doc)
    ensures |d| == |rows| && forall i :: 0 <= i < |rows| ==> d[i] == PlainRow(rows[i])
  {
    seq(|rows|, i requires 0 <= i < |rows| => PlainRow(rows[i]))
  }

  /** `str(xs)` for a list of strings, each quoted with single quotes. */
  function ListRepr(xs: seq<string>): string {
    "[" + QuotedItems(xs) + "]"
  }

  function QuotedItems(xs: seq<string>): string {
    if |xs| == 0 then ""
    else if |xs| == 1 then "'" + xs[0] + "'"
    else "'" + xs[0] + "', " + QuotedItems(xs[1..])
  }

  /** The text the CSV writer puts in a field: `str(value)`. */
  function FieldText(f: Field): string {
    match f
    case Str(s) => s
    case StrList(xs) => ListRepr(xs)
  }

  function RowText(row: Row): (r: seq<string>)
    ensures |r| == |row| && forall i :: 0 <= i < |row| ==> r[i] == FieldText(row[i])
  {
    seq(|row|, i requires 0 <= i < |row| => FieldText(row[i]))
  }

  /** The rows a CSV reader yields for a stored document. */
  function ReadBack(doc: Doc): (rows: seq<seq<string>>)
    ensures |rows| == |doc| && forall i :: 0 <= i < |doc| ==> rows[i] == RowText(doc[i])
  {
    seq(|doc|, i requires 0 <= i < |doc| => RowText(doc[i]))
  }

  /** Reading back an uploaded document gives the uploaded rows. */
  lemma ReadBackPlain(rows: seq<seq<string>>)
    ensures ReadBack(Plain(rows)) == rows
  {
    forall i | 0 <= i < |rows| ensures ReadBack(Plain(rows))[i] == rows[i] {
      assert RowText(PlainRow(rows[i])) == rows[i];
    }
  }

  /** A data row with its list of output URLs appended. */
  function EnrichedRow(row: seq<string>, urls: seq<string>): Row {
    PlainRow(row) + [StrList(urls)]
  }

  /** The data rows as the loop appends them, one after the other. */
  function EnrichedRows(rows: seq<seq<string>>, outputs: seq<seq<string>>): Doc
    requires |outputs| == |rows|
  {
    if |rows| == 0 then []
    else
      var n := |rows| - 1;
      EnrichedRows(rows[..n], outputs[..n]) + [EnrichedRow(rows[n], outputs[n])]
  }

  /** The document `process_file` uploads: `[[headers]]` makes the header one
      row with a single field, the extended header list; each data row follows. */
  function EnrichedDoc(header: seq<string>, rows: seq<seq<string>>, outputs: seq<seq<string>>): Doc
    requires |outputs| == |rows|
  {
    [[StrList(header + [OutputHeader])]] + EnrichedRows(rows, outputs)
  }

  lemma {:induction false} EnrichedRowsAt(rows: seq<seq<string>>, outputs: seq<seq<string>>)
    requires |outputs| == |rows|
    ensures |EnrichedRows(rows, outputs)| == |rows|
    ensures forall i :: 0 <= i < |rows| ==> EnrichedRows(rows, outputs)[i] == EnrichedRow(rows[i], outputs[i])
  {
    if |rows| > 0 {
      var n := |rows| - 1;
      EnrichedRowsAt(rows[..n], outputs[..n]);
    }
  }

  /** Shape of the uploaded result: one row more than there are data rows; the
      header row is a single field; data row i is input row i, in order, with
      one more field holding its output URLs. */
  lemma EnrichedDocShape(header: seq<string>, rows: seq<seq<string>>, outputs: seq<seq<string>>)
    requires |outputs| == |rows|
    ensures var doc := EnrichedDoc(header, rows, outputs);
      && |doc| == |rows| + 1
      && doc[0] == [StrList(header + [OutputHeader])]
      && forall i :: 0 <= i < |rows| ==>
           && |doc[i + 1]| == |rows[i]| + 1
           && doc[i + 1][..|rows[i]|] == PlainRow(rows[i])
           && doc[i + 1][|rows[i]|] == StrList(outputs[i])
  {
    EnrichedRowsAt(rows, outputs);
    var doc := EnrichedDoc(header, rows, outputs);
    forall i | 0 <= i < |rows|
      ensures doc[i + 1][..|rows[i]|] == PlainRow(rows[i])
    {
      assert doc[i + 1] == EnrichedRow(rows[i], outputs[i]);
    }
  }

  /** Read back, the result's header is one text field, not one per column. */
  lemma EnrichedHeaderIsOneField(header: seq<string>, rows: seq<seq<string>>, outputs: seq<seq<string>>)
    requires |outputs| == |rows|
    ensures ReadBack(EnrichedDoc(header, rows, outputs))[0] == [ListRepr(header + [OutputHeader])]
  {
    EnrichedDocShape(header, rows, outputs);
  }

  /** Extending a partial result by one row is the enrichment of one more row:
      the step of the loop in `process_file`. */
  lemma EnrichedRowsSnoc(rows: seq<seq<string>>, outputs: seq<seq<string>>, i: nat, urls: seq<string>)
    requires |outputs| == i < |rows|
    ensures EnrichedRows(rows[..i], outputs) + [EnrichedRow(rows[i], urls)] ==
            EnrichedRows(rows[..i + 1], outputs + [urls])
  {
    assert rows[..i + 1][..i] == rows[..i];
    assert (outputs + [urls])[..i] == outputs;
  }
}
