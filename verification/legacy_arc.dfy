/** The older extractor of `internal/arc`: `processReport` builds the CSV table
    directly, starting from the header row and appending one row per record
    line, and fails when a record line does not scan or when the table is
    still only the header at the end. Its errors carry no line. `writeCSV`
    hands the table to Go's CSV writer. */
module LegacyArc {
  import opened Results
  import opened Text
  import opened LineScan
  import opened Collect
  import opened ArcReport
  import opened ArcProcess
  import Csv

  /** The two failures of `processReport`. */
  datatype LegacyError =
    | Malformed
    | NoRecords

  /** `processReport`, as the Go code runs it: it fails with `Malformed` at
      the first record line that does not scan, fails with `NoRecords` when
      there is no record line, and otherwise returns the header row and one
      row per record line, in order. */
  method ProcessReport(lines: seq<string>) returns (r: Result<seq<seq<string>>, LegacyError>)
    ensures r == Err(Malformed) <==> ParseAll(Candidates(lines), ParseLine).Err?
    ensures r == Err(NoRecords) <==> Candidates(lines) == []
    ensures r.Ok? ==> ParseAll(Candidates(lines), ParseLine).Ok?
    ensures r.Ok? ==> r.value == Table(ParseAll(Candidates(lines), ParseLine).value)
  {
    var scanned, table := ScanLines(lines);
    if !scanned {
      assert Candidates(lines) != [] by {
        assert ParseAll([], ParseLine) == Ok([]);
      }
      return Err(Malformed);
    }
    assert |table| == 1 <==> Candidates(lines) == [] by {
      assert |ParseAll(Candidates(lines), ParseLine).value| == |Candidates(lines)|;
    }
    if |table| == 1 {
      return Err(NoRecords);
    }
    return Ok(table);
  }

  /** The loop of `processReport`: the header row, then one row per record
      line, stopping at the first record line that does not scan. */
  method ScanLines(lines: seq<string>) returns (scanned: bool, table: seq<seq<string>>)
    ensures scanned <==> ParseAll(Candidates(lines), ParseLine).Ok?
    ensures scanned ==> table == Table(ParseAll(Candidates(lines), ParseLine).value)
  {
    table := [Header];
    ghost var report: Report := [];
    var i := 0;
    while i < |lines|
      invariant 0 <= i <= |lines|
      invariant ParseAll(Candidates(lines[..i]), ParseLine) == Ok(report)
      invariant table == Table(report)
    {
      var l := lines[i];
      if HasPrefix(l, DataPrefix) {
        match ParseLine(l)
        case Err(_) =>
          StopStep(lines, i, report);
          return false, table;
        case Ok(rec) =>
          KeepStep(lines, i, report, rec);
          TableSnoc(report, rec);
          table := table + [[rec.serialNumber, rec.wprn, rec.premiseId]];
          report := report + [rec];
      } else {
        SkipStep(lines, i);
      }
      i := i + 1;
    }
    assert lines[..i] == lines;
    return true, table;
  }

  /** The outcome `processReport` promises, stated against `ParseReport`: it
      fails exactly when `ParseReport` fails, with `NoRecords` for `NoData`
      and `Malformed` for `MalformedLine`, and otherwise returns the table
      `ProcessReportToCSV` writes. */
  lemma Agreement(lines: seq<string>, r: Result<seq<seq<string>>, LegacyError>)
    requires r == Err(Malformed) <==> ParseAll(Candidates(lines), ParseLine).Err?
    requires r == Err(NoRecords) <==> Candidates(lines) == []
    requires r.Ok? ==> ParseAll(Candidates(lines), ParseLine).Ok?
    requires r.Ok? ==> r.value == Table(ParseAll(Candidates(lines), ParseLine).value)
    ensures r.Ok? <==> ParseReport(lines).Ok?
    ensures r.Ok? ==> r.value == Table(ParseReport(lines).value)
    ensures r == Err(NoRecords) <==> ParseReport(lines) == Err(NoData)
    ensures r == Err(Malformed) <==> ParseReport(lines).Err? && ParseReport(lines).error.MalformedLine?
  {
    var p := ParseAll(Candidates(lines), ParseLine);
    match p
    case Err(e) =>
      ParseAllError(Candidates(lines), ParseLine);
      var k :| FirstError(Candidates(lines), ParseLine, k) && ParseLine(Candidates(lines)[k]) == Err(e);
      assert e.MalformedLine?;
    case Ok(report) =>
      assert |report| == |Candidates(lines)|;
      assert ParseReport(lines) == if |report| == 0 then Err(NoData) else Ok(report);
      if r.Err? {
        assert r.error == NoRecords;
      }
  }

  /** Appending a record appends its row. */
  lemma {:induction false} TableSnoc(report: Report, rec: Record)
    ensures Table(report + [rec]) == Table(report) + [Row(rec)]
  {
    assert Rows(report + [rec]) == Rows(report) + [Row(rec)];
  }

  /** `writeCSV`: the whole table through Go's CSV writer. Every row of at
      least one field is written, in order, and reads back unchanged. */
  function WriteCsv(records: seq<seq<string>>): (r: string)
    ensures (forall i :: 0 <= i < |records| ==> |records[i]| > 0) ==> Csv.ReadAll(r) == Some(records)
  {
    WrittenTableReadsBack(records);
    Csv.WriteAll(records)
  }

  /** The read-back of a written table, for tables whose rows all have a field. */
  lemma WrittenTableReadsBack(records: seq<seq<string>>)
    ensures (forall i :: 0 <= i < |records| ==> |records[i]| > 0) ==>
              Csv.ReadAll(Csv.WriteAll(records)) == Some(records)
  {
    if forall i :: 0 <= i < |records| ==> |records[i]| > 0 {
      Csv.ReadWriteAll(records);
    }
  }

  /** The two packages write the same CSV: whatever `processReport` returns,
      `writeCSV` of its table is written exactly when `ProcessReportToCSV`
      succeeds, and then it is the same text. */
  lemma SameCsv(lines: seq<string>, r: Result<seq<seq<string>>, LegacyError>)
    requires r == Err(Malformed) <==> ParseAll(Candidates(lines), ParseLine).Err?
    requires r == Err(NoRecords) <==> Candidates(lines) == []
    requires r.Ok? ==> ParseAll(Candidates(lines), ParseLine).Ok?
    requires r.Ok? ==> r.value == Table(ParseAll(Candidates(lines), ParseLine).value)
    ensures r.Ok? <==> ProcessReportToCsv(lines).Ok?
    ensures r.Ok? ==> ProcessReportToCsv(lines) == Ok(WriteCsv(r.value))
  {
    Agreement(lines, r);
  }
}
