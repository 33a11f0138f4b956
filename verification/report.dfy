/**
 * The two output files as lists of records (one list of field strings per
 * line, header first), together with the readers that take them back.
 */
module Report {
  import opened Wrappers
  import opened Outcomes
  import opened Orchestrator

  /** One line of a CSV file: its fields. */
  type Record = seq<string>

  const ResultsHeader: Record := ["Pincode", "Address", "Zepto", "Blinkit", "Instamart"]
  const InvalidHeader: Record := ["Invalid Pincode"]

  /** The fields a results row is written as, in header order. */
  function ResultRecord(row: ResultRow): Record {
    [row.pincode, row.address, Label(row.zepto), Label(row.blinkit), Label(row.instamart)]
  }

  /** `write_results_to_csv`: the header, then one record per result. */
  function ResultsTable(rows: seq<ResultRow>): (t: seq<Record>)
    ensures |t| == |rows| + 1 && t[0] == ResultsHeader
    ensures forall k :: 0 <= k < |rows| ==>
      && |t[k + 1]| == 5
      && t[k + 1][0] == rows[k].pincode && t[k + 1][1] == rows[k].address
      && t[k + 1][2] == Label(rows[k].zepto)
      && t[k + 1][3] == Label(rows[k].blinkit)
      && t[k + 1][4] == Label(rows[k].instamart)
  {
    [ResultsHeader] + ResultRecords(rows)
  }

  /** The results lines after the header. */
  function ResultRecords(rows: seq<ResultRow>): (recs: seq<Record>)
    ensures |recs| == |rows|
    ensures forall k :: 0 <= k < |rows| ==> recs[k] == ResultRecord(rows[k])
  {
    if |rows| == 0 then [] else [ResultRecord(rows[0])] + ResultRecords(rows[1..])
  }

  /** `write_invalid_pincodes`: the header, then one single-field record per
      invalid pincode. */
  function InvalidTable(pins: seq<string>): (t: seq<Record>)
    ensures |t| == |pins| + 1 && t[0] == InvalidHeader
    ensures forall k :: 0 <= k < |pins| ==> t[k + 1] == [pins[k]]
  {
    [InvalidHeader] + InvalidRecords(pins)
  }

  /** The invalid-pincodes lines after the header. */
  function InvalidRecords(pins: seq<string>): (recs: seq<Record>)
    ensures |recs| == |pins|
    ensures forall k :: 0 <= k < |pins| ==> recs[k] == [pins[k]]
  {
    if |pins| == 0 then [] else [[pins[0]]] + InvalidRecords(pins[1..])
  }

  /** Reads one results record back. */
  function ParseResultRecord(rec: Record): (r: Option<ResultRow>)
    ensures r.Some? ==> ResultRecord(r.value) == rec
  {
    if |rec| != 5 then None
    else match (ParseLabel(rec[2]), ParseLabel(rec[3]), ParseLabel(rec[4]))
      case (Some(z), Some(b), Some(i)) => Some(ResultRow(rec[0], rec[1], z, b, i))
      case _ => None
  }

  /** Reads results lines back, failing on the first malformed one. */
  function ParseResultRecords(recs: seq<Record>): Option<seq<ResultRow>> {
    if |recs| == 0 then Some([])
    else match (ParseResultRecord(recs[0]), ParseResultRecords(recs[1..]))
      case (Some(row), Some(rest)) => Some([row] + rest)
      case _ => None
  }

  /** Reads a results file back: the header must come first. */
  function ParseResultsTable(t: seq<Record>): Option<seq<ResultRow>> {
    if |t| == 0 || t[0] != ResultsHeader then None else ParseResultRecords(t[1..])
  }

  /** Reads an invalid-pincodes file back. */
  function ParseInvalidTable(t: seq<Record>): Option<seq<string>> {
    if |t| == 0 || t[0] != InvalidHeader then None else ParseInvalidRecords(t[1..])
  }

  /** Reads invalid-pincodes lines back; each must hold exactly one field. */
  function ParseInvalidRecords(recs: seq<Record>): Option<seq<string>> {
    if |recs| == 0 then Some([])
    else if |recs[0]| != 1 then None
    else match ParseInvalidRecords(recs[1..])
      case Some(rest) => Some([recs[0][0]] + rest)
      case None => None
  }

  /** Re-reading the results file gives back every row: pincode, address and
      the three statuses. */
  lemma ResultsRoundTrip(rows: seq<ResultRow>)
    ensures ParseResultsTable(ResultsTable(rows)) == Some(rows)
  {
    RecordsRoundTrip(rows);
    assert ResultsTable(rows)[1..] == ResultRecords(rows);
  }

  lemma {:induction false} RecordsRoundTrip(rows: seq<ResultRow>)
    ensures ParseResultRecords(ResultRecords(rows)) == Some(rows)
  {
    if |rows| > 0 {
      var row := rows[0];
      var recs, rest := ResultRecords(rows), ResultRecords(rows[1..]);
      assert recs == [ResultRecord(row)] + rest;
      assert recs[0] == ResultRecord(row) && recs[1..] == rest;
      LabelRoundTrip(row.zepto);
      LabelRoundTrip(row.blinkit);
      LabelRoundTrip(row.instamart);
      RecordsRoundTrip(rows[1..]);
      assert rows == [row] + rows[1..];
    }
  }

  /** Only what `ResultsTable` writes reads back: a table that parses is the
      table of the rows it parses to. */
  lemma ResultsTableOnlyParses(t: seq<Record>, rows: seq<ResultRow>)
    requires ParseResultsTable(t) == Some(rows)
    ensures ResultsTable(rows) == t
  {
    RecordsOnlyParse(t[1..], rows);
    assert t == [t[0]] + t[1..];
  }

  lemma {:induction false} RecordsOnlyParse(recs: seq<Record>, rows: seq<ResultRow>)
    requires ParseResultRecords(recs) == Some(rows)
    ensures ResultRecords(rows) == recs
    decreases |recs|
  {
    if |recs| > 0 {
      var rest := ParseResultRecords(recs[1..]).value;
      RecordsOnlyParse(recs[1..], rest);
      assert rows[0] == ParseResultRecord(recs[0]).value && rows[1..] == rest by {
        assert rows == [ParseResultRecord(recs[0]).value] + rest;
      }
      assert recs == [recs[0]] + recs[1..];
    }
  }

  /** Re-reading the invalid-pincodes file gives back every pincode, in order. */
  lemma InvalidRoundTrip(pins: seq<string>)
    ensures ParseInvalidTable(InvalidTable(pins)) == Some(pins)
  {
    InvalidRecordsRoundTrip(pins);
    assert InvalidTable(pins)[1..] == InvalidRecords(pins);
  }

  lemma {:induction false} InvalidRecordsRoundTrip(pins: seq<string>)
    ensures ParseInvalidRecords(InvalidRecords(pins)) == Some(pins)
  {
    if |pins| > 0 {
      var recs := InvalidRecords(pins);
      assert recs[0] == [pins[0]] && recs[1..] == InvalidRecords(pins[1..]) by {
        assert recs == [[pins[0]]] + InvalidRecords(pins[1..]);
      }
      InvalidRecordsRoundTrip(pins[1..]);
      assert ParseInvalidRecords(recs) == Some([pins[0]] + pins[1..]);
      assert pins == [pins[0]] + pins[1..];
    }
  }

  /** Only what `InvalidTable` writes reads back. */
  lemma InvalidTableOnlyParses(t: seq<Record>, pins: seq<string>)
    requires ParseInvalidTable(t) == Some(pins)
    ensures InvalidTable(pins) == t
  {
    InvalidRecordsOnlyParse(t[1..], pins);
    assert t == [t[0]] + t[1..];
  }

  lemma {:induction false} InvalidRecordsOnlyParse(recs: seq<Record>, pins: seq<string>)
    requires ParseInvalidRecords(recs) == Some(pins)
    ensures InvalidRecords(pins) == recs
    decreases |recs|
  {
    if |recs| > 0 {
      var rest := ParseInvalidRecords(recs[1..]).value;
      InvalidRecordsOnlyParse(recs[1..], rest);
      var field := recs[0][0];
      assert pins[0] == field && pins[1..] == rest by {
        assert pins == [field] + rest;
      }
      assert recs == [[field]] + recs[1..] by {
        assert recs[0] == [field];
      }
    }
  }
}
