/** The two report writers of the top-level package: `ProcessReportToCSV`
    and `ProcessReportToJSON` parse the whole input first and write nothing
    unless the parse succeeds; the CSV table is a header row followed by one
    row per record, and the JSON document is the marshalled report. */
module ArcProcess {
  import opened Results
  import opened Text
  import opened LineScan
  import opened ArcReport
  import Csv
  import Json

  /** The header row of both CSV writers. */
  const Header: seq<string> := [SerialLabel, WprnLabel, PremiseLabel]

  /** A record as a CSV row: serial number, WPRN, premise ID. */
  function Row(r: Record): seq<string> {
    [r.serialNumber, r.wprn, r.premiseId]
  }

  /** One CSV row per record, in order. */
  function Rows(report: Report): (rows: seq<seq<string>>)
    ensures |rows| == |report|
    ensures forall i :: 0 <= i < |report| ==> rows[i] == Row(report[i])
    decreases |report|
  {
    if report == [] then [] else [Row(report[0])] + Rows(report[1..])
  }

  /** The table `ProcessReportToCSV` hands to the CSV writer. */
  function Table(report: Report): (t: seq<seq<string>>)
    ensures |t| == |report| + 1 && t[0] == Header
    ensures forall i :: 0 <= i < |t| ==> |t[i]| == 3
  {
    [Header] + Rows(report)
  }

  /** `ProcessReportToCSV`: the parse error, or the CSV text of the table;
      the text reads back as exactly that table. */
  function ProcessReportToCsv(lines: seq<string>): (r: Result<string, ParseError>)
    ensures r.Err? <==> ParseReport(lines).Err?
    ensures r.Err? ==> r.error == ParseReport(lines).error
    ensures r.Ok? ==> Csv.ReadAll(r.value) == Some(Table(ParseReport(lines).value))
  {
    match ParseReport(lines)
    case Err(e) => Err(e)
    case Ok(report) =>
      Csv.ReadWriteAll(Table(report));
      Ok(Csv.WriteAll(Table(report)))
  }

  /** `ProcessReportToJSON`: the parse error, or the JSON text of the report;
      the text decodes to exactly the parsed report. */
  function ProcessReportToJson(lines: seq<string>): (r: Result<string, ParseError>)
    ensures r.Err? <==> ParseReport(lines).Err?
    ensures r.Err? ==> r.error == ParseReport(lines).error
    ensures r.Ok? ==> Json.DecodeReport(r.value) == Some(ParseReport(lines).value)
  {
    match ParseReport(lines)
    case Err(e) => Err(e)
    case Ok(report) =>
      Json.DecodeMarshalled(report);
      Ok(Json.MarshalReport(report))
  }

  /** A scanned value is quoted in CSV exactly when it is `\.` or holds a
      comma or a double quote (it cannot hold white space). */
  lemma TokenQuoting(t: string)
    requires IsToken(t)
    ensures Csv.NeedsQuotes(t) <==> t == Csv.EndOfData || Csv.Comma in t || Csv.Quote in t
  {
    if exists i :: 0 <= i < |t| && Csv.Special(t[i]) {
      var i :| 0 <= i < |t| && Csv.Special(t[i]);
      assert !IsSpace(t[i]);
      assert t[i] == Csv.Comma || t[i] == Csv.Quote;
    }
    if Csv.Comma in t {
      var i :| 0 <= i < |t| && t[i] == Csv.Comma;
      assert Csv.Special(t[i]);
    }
    if Csv.Quote in t {
      var i :| 0 <= i < |t| && t[i] == Csv.Quote;
      assert Csv.Special(t[i]);
    }
  }

  /** A field the CSV writer leaves unquoted. */
  predicate CsvPlain(f: string) {
    IsToken(f) && f != Csv.EndOfData && Csv.Comma !in f && Csv.Quote !in f
  }

  /** A row of unquoted fields is written as the fields joined by commas. */
  lemma PlainRow(a: string, b: string, c: string)
    requires CsvPlain(a) && CsvPlain(b) && CsvPlain(c)
    ensures Csv.WriteRecord([a, b, c]) == a + "," + b + "," + c + "\n"
  {
    TokenQuoting(a);
    TokenQuoting(b);
    TokenQuoting(c);
    var row := [a, b, c];
    assert row[1..] == [b, c] && row[1..][1..] == [c];
    assert Csv.EncodeFields([c]) == c;
    assert Csv.EncodeFields([b, c]) == b + [Csv.Comma] + c;
    assert Csv.EncodeFields(row) == a + [Csv.Comma] + (b + [Csv.Comma] + c);
  }

  /** The header line. */
  lemma HeaderLine()
    ensures Csv.WriteRecord(Header) == "Sr.No,WPRN,PremiseID\n"
  {
    HeaderPlain();
    PlainRow(Header[0], Header[1], Header[2]);
  }

  lemma HeaderPlain()
    ensures CsvPlain(Header[0]) && CsvPlain(Header[1]) && CsvPlain(Header[2])
  {
    LabelsAreTokens();
  }

  /** For records whose values need no quoting, the CSV output is the header
      line followed by one `serial,wprn,premise` line per record. */
  lemma {:induction false} PlainRows(report: Report)
    requires forall i :: 0 <= i < |report| ==>
               CsvPlain(report[i].serialNumber) && CsvPlain(report[i].wprn) && CsvPlain(report[i].premiseId)
    ensures Csv.WriteAll(Rows(report)) == PlainLines(report)
    decreases |report|
  {
    if report != [] {
      var r := report[0];
      PlainRow(r.serialNumber, r.wprn, r.premiseId);
      PlainRows(report[1..]);
    }
  }

  /** The plain text of records: one `serial,wprn,premise` line per record. */
  function PlainLines(report: Report): string
    decreases |report|
  {
    if report == [] then []
    else
      var r := report[0];
      r.serialNumber + "," + r.wprn + "," + r.premiseId + "\n" + PlainLines(report[1..])
  }

  /** The CSV output of a parse, when no value needs quoting. */
  lemma PlainCsv(lines: seq<string>)
    requires ParseReport(lines).Ok?
    requires var report := ParseReport(lines).value;
             forall i :: 0 <= i < |report| ==>
               CsvPlain(report[i].serialNumber) && CsvPlain(report[i].wprn) && CsvPlain(report[i].premiseId)
    ensures ProcessReportToCsv(lines) == Ok("Sr.No,WPRN,PremiseID\n" + PlainLines(ParseReport(lines).value))
  {
    var report := ParseReport(lines).value;
    HeaderLine();
    PlainRows(report);
  }
}
