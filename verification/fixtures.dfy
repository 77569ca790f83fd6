/** The sample ArcTool logs of the package's tests, and what the model makes
    of them: the two-record log and its JSON text, the seven-record log and
    its CSV text, a log with a misspelt record line, and a log without record
    lines. Each input is the sequence of its lines; long literals are written
    in pieces. */
module ArcFixtures {
  import opened Results
  import opened Text
  import opened LineScan
  import opened Collect
  import opened ArcReport
  import opened ArcProcess
  import opened LoaderLine
  import Json

  // ---------------------------------------------------------------------
  // Lines that are not record lines.

  const Start1: string := "—————————————START————————————" + "19/02/2021 12:51:06"
  const Loading1: string := "File loading is started for file " + "dfpub0457_DLRZone1_residential_2021-02-18.csv"
  const End1: string := "—————————————END—————————————" + "19/02/2021 12:52:21"
  const Failed0: string := "Total number of failed records 0"

  function ToBeProcessed(n: string): string {
    "Total number of records to be processed " + n
  }

  function ProcessedOk(n: string): string {
    "Total number of processed records successfully " + n
  }

  /** A line that cannot be a record line: its first character is not `S`. */
  predicate Noise(l: string) {
    l != [] && l[0] != 'S'
  }

  lemma NoiseLines(n: string)
    ensures Noise(Start1) && Noise(Loading1) && Noise(End1) && Noise(Failed0)
    ensures Noise(ToBeProcessed(n)) && Noise(ProcessedOk(n))
  {
  }

  /** A run of lines none of which is a record line contributes nothing. */
  lemma {:induction false} NoCandidates(lines: seq<string>)
    requires forall i :: 0 <= i < |lines| ==> Noise(lines[i])
    ensures Candidates(lines) == []
    decreases |lines|
  {
    if lines != [] {
      assert !IsLineWithData(lines[0]) by {
        assert lines[0][0] != DataPrefix[0];
      }
      NoCandidates(lines[1..]);
    }
  }

  // ---------------------------------------------------------------------
  // The records of the samples.

  /** The characters of the sample values. */
  predicate WordChar(c: char) {
    ('A' <= c <= 'Z') || ('a' <= c <= 'z') || ('0' <= c <= '9') || c == '-'
  }

  predicate Word(s: string) {
    s != [] && forall i :: 0 <= i < |s| ==> WordChar(s[i])
  }

  /** A sample value is a token with no semicolon, needs no CSV quoting and
      no JSON escaping. */
  lemma WordIsPlain(s: string)
    requires Word(s)
    ensures ValidField(s) && CsvPlain(s)
    ensures forall i :: 0 <= i < |s| ==> Json.Plain(s[i])
  {
    assert forall i :: 0 <= i < |s| ==> !IsSpace(s[i]) && s[i] != ';' && s[i] != ',' && s[i] != '"';
    assert s[0] != '\\';
  }

  predicate WordRecord(r: Record) {
    Word(r.serialNumber) && Word(r.wprn) && Word(r.premiseId)
  }

  const R1: Record := Record("SKSZPUB0257-1", "2607303", "2306982")
  const R2: Record := Record("SKSZPUB0257-2", "2607304", "3104983")
  const R3: Record := Record("SKSZPUB0257-3", "2607305", "5616984")
  const R4: Record := Record("SKSZPUB0257-4", "2607306", "1626985")
  const R5: Record := Record("ALSZPUB0241-1", "1507307", "2601986")
  const R6: Record := Record("ALSZPUB0241-2", "1507308", "2601987")
  const R7: Record := Record("ALSZPUB0241-3", "1507309", "2601988")

  lemma SampleWords1() ensures WordRecord(R1) && WordRecord(R2) {}
  lemma SampleWords2() ensures WordRecord(R3) && WordRecord(R4) {}
  lemma SampleWords3() ensures WordRecord(R5) && WordRecord(R6) {}
  lemma SampleWords4() ensures WordRecord(R7) {}

  // ---------------------------------------------------------------------
  // Logs made of noise and loader lines.

  /** The loader lines of a report, one per record. */
  function LogLines(report: Report): (ls: seq<string>)
    ensures |ls| == |report|
    decreases |report|
  {
    if report == [] then [] else [LogLine(report[0])] + LogLines(report[1..])
  }

  /** The loader line of a record with sample values is a record line that
      parses back to the record. */
  lemma WordRecordLine(r: Record)
    requires WordRecord(r)
    ensures IsLineWithData(LogLine(r)) && ParseLine(LogLine(r)) == Ok(r)
  {
    WordIsPlain(r.serialNumber);
    WordIsPlain(r.wprn);
    WordIsPlain(r.premiseId);
    LogLineParses(r);
  }

  /** The loader lines of records with sample values are all record lines. */
  lemma {:induction false} LoaderLinesKept(report: Report)
    requires forall i :: 0 <= i < |report| ==> WordRecord(report[i])
    ensures Candidates(LogLines(report)) == LogLines(report)
    decreases |report|
  {
    if report != [] {
      var ls := LogLines(report);
      assert ls[0] == LogLine(report[0]) && ls[1..] == LogLines(report[1..]);
      WordRecordLine(report[0]);
      LoaderLinesKept(report[1..]);
    }
  }

  /** They parse back to those records. */
  lemma {:induction false} LoaderLinesParse(report: Report)
    requires forall i :: 0 <= i < |report| ==> WordRecord(report[i])
    ensures ParseAll(LogLines(report), ParseLine) == Ok(report)
    decreases |report|
  {
    if report != [] {
      var ls := LogLines(report);
      assert ls[0] == LogLine(report[0]) && ls[1..] == LogLines(report[1..]);
      WordRecordLine(report[0]);
      LoaderLinesParse(report[1..]);
      assert report == [report[0]] + report[1..];
    }
  }

  /** A log made of noise, loader lines and more noise parses to the records
      of its loader lines. */
  lemma NoisyLog(before: seq<string>, report: Report, after: seq<string>)
    requires forall i :: 0 <= i < |before| ==> Noise(before[i])
    requires forall i :: 0 <= i < |after| ==> Noise(after[i])
    requires report != [] && forall i :: 0 <= i < |report| ==> WordRecord(report[i])
    ensures ParseReport(before + LogLines(report) + after) == Ok(report)
  {
    var lines := before + LogLines(report) + after;
    assert ParseAll(Candidates(lines), ParseLine) == Ok(report) by {
      LoaderLinesKept(report);
      LoaderLinesParse(report);
      KeepsLoaderLines(before, LogLines(report), after);
    }
    EndStep(lines, report);
  }

  lemma KeepsLoaderLines(before: seq<string>, m: seq<string>, after: seq<string>)
    requires forall i :: 0 <= i < |before| ==> Noise(before[i])
    requires forall i :: 0 <= i < |after| ==> Noise(after[i])
    requires Candidates(m) == m
    ensures Candidates(before + m + after) == m
  {
    assert Candidates(before) == [] by {
      NoCandidates(before);
    }
    assert Candidates(after) == [] by {
      NoCandidates(after);
    }
    assert Candidates(before + m) == m by {
      CandidatesConcat(before, m);
      assert [] + m == m;
    }
    CandidatesConcat(before + m, after);
    assert m + [] == m;
  }

  /** One run of the loader as it appears in the log: a start line, the
      name of the file, one loader line per record, the totals and an end
      line. */
  function Batch(start: string, loading: string, report: Report, n: string, end: string): seq<string> {
    [start, loading] + LogLines(report) + [ToBeProcessed(n), ProcessedOk(n), Failed0, end]
  }

  lemma BatchParses(start: string, loading: string, report: Report, n: string, end: string)
    requires Noise(start) && Noise(loading) && Noise(end)
    requires report != [] && forall i :: 0 <= i < |report| ==> WordRecord(report[i])
    ensures ParseReport(Batch(start, loading, report, n, end)) == Ok(report)
  {
    NoiseLines(n);
    NoisyLog([start, loading], report, [ToBeProcessed(n), ProcessedOk(n), Failed0, end]);
  }

  // ---------------------------------------------------------------------
  // The two-record log and its JSON text.

  const TwoLinesReport: Report := [R1, R2]

  function TwoLinesData(): seq<string> {
    Batch(Start1, Loading1, TwoLinesReport, "2", End1)
  }

  /** `ParseReport` of the two-record log returns its two records. */
  lemma TwoLinesParse()
    ensures ParseReport(TwoLinesData()) == Ok(TwoLinesReport)
  {
    NoiseLines("2");
    SampleWords1();
    BatchParses(Start1, Loading1, TwoLinesReport, "2", End1);
  }

  /** A sample value is marshalled as itself between double quotes. */
  lemma MarshalWord(t: string)
    requires Word(t)
    ensures Json.MarshalString(t) == "\"" + t + "\""
  {
    WordIsPlain(t);
    Json.EscapeIdentity(t);
  }

  /** A record with sample values, marshalled: its values go in as they
      are, between double quotes. */
  lemma MarshalWordRecord(r: Record)
    requires WordRecord(r)
    ensures Json.MarshalRecord(r) ==
              Json.SrNoKey + (("\"" + r.serialNumber + "\"")
                + (Json.WprnKey + (("\"" + r.wprn + "\"")
                + (Json.PremiseKey + (("\"" + r.premiseId + "\"") + "}")))))
  {
    MarshalWord(r.serialNumber);
    MarshalWord(r.wprn);
    MarshalWord(r.premiseId);
  }

  /** The expected JSON text of the two-record log, written in the pieces
      the writer emits: keys, quoted values, separators. */
  const FirstObject: string :=
    "{\"sr_no\":" + ("\"SKSZPUB0257-1\"" + (",\"wprn\":" + ("\"2607303\"" + (",\"premise_id\":" + ("\"2306982\"" + "}")))))
  const SecondObject: string :=
    "{\"sr_no\":" + ("\"SKSZPUB0257-2\"" + (",\"wprn\":" + ("\"2607304\"" + (",\"premise_id\":" + ("\"3104983\"" + "}")))))
  const TwoLinesJsonText: string := "[" + FirstObject + "," + SecondObject + "]"

  lemma MarshalR1(r: Record)
    requires r == R1
    ensures Json.MarshalRecord(r) == FirstObject
  {
    SampleWords1();
    MarshalWordRecord(r);
    QuotedR1(r);
  }

  lemma QuotedR1(r: Record)
    requires r == R1
    ensures "\"" + r.serialNumber + "\"" == "\"SKSZPUB0257-1\""
    ensures "\"" + r.wprn + "\"" == "\"2607303\"" && "\"" + r.premiseId + "\"" == "\"2306982\""
  {
  }

  lemma MarshalR2(r: Record)
    requires r == R2
    ensures Json.MarshalRecord(r) == SecondObject
  {
    SampleWords1();
    MarshalWordRecord(r);
    QuotedR2(r);
  }

  lemma QuotedR2(r: Record)
    requires r == R2
    ensures "\"" + r.serialNumber + "\"" == "\"SKSZPUB0257-2\""
    ensures "\"" + r.wprn + "\"" == "\"2607304\"" && "\"" + r.premiseId + "\"" == "\"3104983\""
  {
  }

  /** A two-record report is marshalled as its two objects between brackets,
      separated by a comma. */
  lemma MarshalPair(report: Report)
    requires |report| == 2
    ensures Json.MarshalReport(report) ==
              "[" + Json.MarshalRecord(report[0]) + "," + Json.MarshalRecord(report[1]) + "]"
  {
    var a := Json.MarshalRecord(report[0]);
    var b := Json.MarshalRecord(report[1]);
    assert report[1..] == [report[1]];
    assert Json.MarshalRecords(report) == a + "," + b;
    Assoc("[", a + ",", b);
    Assoc("[", a, ",");
  }

  /** `ProcessReportToJSON` of the two-record log writes the JSON text the
      package's test expects. */
  lemma TwoLinesJson()
    ensures ProcessReportToJson(TwoLinesData()) == Ok(TwoLinesJsonText)
  {
    TwoLinesParse();
    TwoLinesMarshalled(TwoLinesReport);
  }

  lemma TwoLinesMarshalled(report: Report)
    requires report == TwoLinesReport
    ensures Json.MarshalReport(report) == TwoLinesJsonText
  {
    MarshalR1(report[0]);
    MarshalR2(report[1]);
    MarshalPair(report);
    TwoObjects(Json.MarshalRecord(report[0]), Json.MarshalRecord(report[1]));
  }

  lemma TwoObjects(a: string, b: string)
    requires a == FirstObject && b == SecondObject
    ensures "[" + a + "," + b + "]" == TwoLinesJsonText
  {
  }

  // ---------------------------------------------------------------------
  // The seven-record log of two loader runs and its CSV text.

  const Start2: string := "—————————————START————————————" + "19/02/2021 12:53:48"
  const Loading2: string := "File loading is started for file " + "dfpub0441_DLRZone4_residential_2021-02-18.csv"
  const End2: string := "—————————————END—————————————" + "19/02/2021 12:58:21"

  const FirstRun: Report := [R1, R2, R3, R4]
  const SecondRun: Report := [R5, R6, R7]

  function ValidData(): seq<string> {
    Batch(Start1, Loading1, FirstRun, "4", End1) + Batch(Start2, Loading2, SecondRun, "3", End2)
  }

  lemma FirstRunParse()
    ensures ParseReport(Batch(Start1, Loading1, FirstRun, "4", End1)) == Ok(FirstRun)
  {
    NoiseLines("4");
    SampleWords1();
    SampleWords2();
    BatchParses(Start1, Loading1, FirstRun, "4", End1);
  }

  lemma SecondRunParse()
    ensures ParseReport(Batch(Start2, Loading2, SecondRun, "3", End2)) == Ok(SecondRun)
  {
    assert Noise(Start2) && Noise(Loading2) && Noise(End2);
    SampleWords3();
    SampleWords4();
    BatchParses(Start2, Loading2, SecondRun, "3", End2);
  }

  lemma RunsJoined()
    ensures FirstRun + SecondRun == [R1, R2, R3, R4, R5, R6, R7]
  {
  }

  /** The records of both runs, in the order of the log. */
  lemma ValidParse()
    ensures ParseReport(ValidData()) == Ok([R1, R2, R3, R4, R5, R6, R7])
  {
    RunsJoined();
    FirstRunParse();
    SecondRunParse();
    ParseReportConcat(Batch(Start1, Loading1, FirstRun, "4", End1), Batch(Start2, Loading2, SecondRun, "3", End2));
  }

  /** The expected CSV text of the seven-record log: the header line, then
      one line per record. */
  const ValidCsvText: string :=
    "Sr.No,WPRN,PremiseID\n"
      + ("SKSZPUB0257-1,2607303,2306982\n"
      + ("SKSZPUB0257-2,2607304,3104983\n"
      + ("SKSZPUB0257-3,2607305,5616984\n"
      + ("SKSZPUB0257-4,2607306,1626985\n"
      + ("ALSZPUB0241-1,1507307,2601986\n"
      + ("ALSZPUB0241-2,1507308,2601987\n"
      + ("ALSZPUB0241-3,1507309,2601988\n")))))))

  /** `ProcessReportToCSV` of the seven-record log writes the CSV text the
      package's test expects. */
  lemma ValidCsv()
    ensures ProcessReportToCsv(ValidData()) == Ok(ValidCsvText)
  {
    ValidParse();
    SampleCsv(ValidData(), [R1, R2, R3, R4, R5, R6, R7]);
  }

  lemma SampleCsv(lines: seq<string>, report: Report)
    requires report == [R1, R2, R3, R4, R5, R6, R7]
    requires ParseReport(lines) == Ok(report)
    ensures ProcessReportToCsv(lines) == Ok(ValidCsvText)
  {
    assert forall i :: 0 <= i < |report| ==> WordRecord(report[i]) by {
      SampleWords1();
      SampleWords2();
      SampleWords3();
      SampleWords4();
    }
    WordsArePlain(report);
    PlainCsv(lines);
    SevenLines(report);
  }

  lemma WordsArePlain(report: Report)
    requires forall i :: 0 <= i < |report| ==> WordRecord(report[i])
    ensures forall i :: 0 <= i < |report| ==>
              CsvPlain(report[i].serialNumber) && CsvPlain(report[i].wprn) && CsvPlain(report[i].premiseId)
  {
    forall i | 0 <= i < |report|
      ensures CsvPlain(report[i].serialNumber) && CsvPlain(report[i].wprn) && CsvPlain(report[i].premiseId)
    {
      WordIsPlain(report[i].serialNumber);
      WordIsPlain(report[i].wprn);
      WordIsPlain(report[i].premiseId);
    }
  }

  lemma SevenLines(report: Report)
    requires report == [R1, R2, R3, R4, R5, R6, R7]
    ensures PlainLines(report) == "SKSZPUB0257-1,2607303,2306982\n"
                 + ("SKSZPUB0257-2,2607304,3104983\n"
                 + ("SKSZPUB0257-3,2607305,5616984\n"
                 + ("SKSZPUB0257-4,2607306,1626985\n"
                 + ("ALSZPUB0241-1,1507307,2601986\n"
                 + ("ALSZPUB0241-2,1507308,2601987\n"
                 + ("ALSZPUB0241-3,1507309,2601988\n"))))))
  {
    FirstFourLines(report);
    LastThreeLines(report);
  }

  lemma FirstFourLines(report: Report)
    requires report == [R1, R2, R3, R4, R5, R6, R7]
    ensures PlainLines(report) == "SKSZPUB0257-1,2607303,2306982\n"
                 + ("SKSZPUB0257-2,2607304,3104983\n"
                 + ("SKSZPUB0257-3,2607305,5616984\n"
                 + ("SKSZPUB0257-4,2607306,1626985\n"
                 + PlainLines(report[4..]))))
  {
    PlainLinesStep(report, 0);
    CsvLine1(report[0]);
    PlainLinesStep(report, 1);
    CsvLine2(report[1]);
    PlainLinesStep(report, 2);
    CsvLine3(report[2]);
    PlainLinesStep(report, 3);
    CsvLine4(report[3]);
    assert report[0..] == report;
  }

  lemma LastThreeLines(report: Report)
    requires report == [R1, R2, R3, R4, R5, R6, R7]
    ensures PlainLines(report[4..]) == "ALSZPUB0241-1,1507307,2601986\n"
                 + ("ALSZPUB0241-2,1507308,2601987\n"
                 + "ALSZPUB0241-3,1507309,2601988\n")
  {
    PlainLinesStep(report, 4);
    CsvLine5(report[4]);
    PlainLinesStep(report, 5);
    CsvLine6(report[5]);
    PlainLinesStep(report, 6);
    CsvLine7(report[6]);
    assert report[7..] == [];
  }

  /** `PlainLines` from the k-th record on: the k-th line, then the rest. */
  lemma PlainLinesStep(report: Report, k: int)
    requires 0 <= k < |report|
    ensures PlainLines(report[k..]) ==
              report[k].serialNumber + "," + report[k].wprn + "," + report[k].premiseId + "\n" + PlainLines(report[k + 1..])
  {
    assert report[k..][0] == report[k];
    assert report[k..][1..] == report[k + 1..];
  }

  lemma CsvLine1(r: Record)
    requires r == R1
    ensures r.serialNumber + "," + r.wprn + "," + r.premiseId + "\n" == "SKSZPUB0257-1,2607303,2306982\n"
  {
  }

  lemma CsvLine2(r: Record)
    requires r == R2
    ensures r.serialNumber + "," + r.wprn + "," + r.premiseId + "\n" == "SKSZPUB0257-2,2607304,3104983\n"
  {
  }

  lemma CsvLine3(r: Record)
    requires r == R3
    ensures r.serialNumber + "," + r.wprn + "," + r.premiseId + "\n" == "SKSZPUB0257-3,2607305,5616984\n"
  {
  }

  lemma CsvLine4(r: Record)
    requires r == R4
    ensures r.serialNumber + "," + r.wprn + "," + r.premiseId + "\n" == "SKSZPUB0257-4,2607306,1626985\n"
  {
  }

  lemma CsvLine5(r: Record)
    requires r == R5
    ensures r.serialNumber + "," + r.wprn + "," + r.premiseId + "\n" == "ALSZPUB0241-1,1507307,2601986\n"
  {
  }

  lemma CsvLine6(r: Record)
    requires r == R6
    ensures r.serialNumber + "," + r.wprn + "," + r.premiseId + "\n" == "ALSZPUB0241-2,1507308,2601987\n"
  {
  }

  lemma CsvLine7(r: Record)
    requires r == R7
    ensures r.serialNumber + "," + r.wprn + "," + r.premiseId + "\n" == "ALSZPUB0241-3,1507309,2601988\n"
  {
  }

  // ---------------------------------------------------------------------
  // A log with a misspelt record line.

  /** The words of `Sr.No = SKSZPUB0257-2; WPRM = 2607304; PremiseIDx = 3104983`. */
  const MisspeltWords: seq<string> :=
    ["Sr.No", "=", "SKSZPUB0257-2", "WPRM", "=", "2607304", "PremiseIDx", "=", "3104983"]

  function InvalidData(): seq<string> {
    ([Start1, Loading1] + LogLines([R1]))
      + ([LoaderText(MisspeltWords)] + [ToBeProcessed("4"), ProcessedOk("4"), Failed0, End1])
  }

  /** The misspelt line is a record line the scan rejects; the error carries
      the line without its semicolons. */
  lemma MisspeltLine(toks: seq<string>)
    requires toks == MisspeltWords
    ensures IsLineWithData(LoaderText(toks))
    ensures ParseLine(LoaderText(toks)) == Err(MalformedLine(Join(ScanGaps, toks)))
  {
    MisspeltTokens(toks);
    assert !Matches(toks) by {
      assert toks[3] != WprnLabel;
    }
    LoaderTextIsRecordLine(toks);
    LoaderTextParses(toks);
  }

  lemma MisspeltTokens(toks: seq<string>)
    requires toks == MisspeltWords
    ensures forall i :: 0 <= i < 9 ==> IsToken(toks[i]) && ';' !in toks[i]
  {
    assert forall j :: 0 <= j < |toks[0]| ==> !IsSpace(toks[0][j]) && toks[0][j] != ';';
    assert forall j :: 0 <= j < |toks[1]| ==> !IsSpace(toks[1][j]) && toks[1][j] != ';';
    assert forall j :: 0 <= j < |toks[2]| ==> !IsSpace(toks[2][j]) && toks[2][j] != ';';
    assert forall j :: 0 <= j < |toks[3]| ==> !IsSpace(toks[3][j]) && toks[3][j] != ';';
    assert forall j :: 0 <= j < |toks[5]| ==> !IsSpace(toks[5][j]) && toks[5][j] != ';';
    assert forall j :: 0 <= j < |toks[6]| ==> !IsSpace(toks[6][j]) && toks[6][j] != ';';
    assert forall j :: 0 <= j < |toks[8]| ==> !IsSpace(toks[8][j]) && toks[8][j] != ';';
  }

  /** `ParseReport` of the log stops at the misspelt line, after a good one. */
  lemma InvalidParse()
    ensures ParseReport(InvalidData()) == Err(MalformedLine(Join(ScanGaps, MisspeltWords)))
  {
    GoodStart();
    MisspeltRest();
    ParseReportConcat([Start1, Loading1] + LogLines([R1]),
      [LoaderText(MisspeltWords)] + [ToBeProcessed("4"), ProcessedOk("4"), Failed0, End1]);
  }

  lemma GoodStart()
    ensures ParseReport([Start1, Loading1] + LogLines([R1])) == Ok([R1])
  {
    NoiseLines("4");
    SampleWords1();
    OneBatch([Start1, Loading1], [R1]);
  }

  lemma OneBatch(before: seq<string>, report: Report)
    requires forall i :: 0 <= i < |before| ==> Noise(before[i])
    requires report != [] && forall i :: 0 <= i < |report| ==> WordRecord(report[i])
    ensures ParseReport(before + LogLines(report)) == Ok(report)
  {
    NoisyLog(before, report, []);
    assert before + LogLines(report) + [] == before + LogLines(report);
  }

  lemma MisspeltRest()
    ensures ParseReport([LoaderText(MisspeltWords)] + [ToBeProcessed("4"), ProcessedOk("4"), Failed0, End1])
              == Err(MalformedLine(Join(ScanGaps, MisspeltWords)))
  {
    var b := [LoaderText(MisspeltWords)] + [ToBeProcessed("4"), ProcessedOk("4"), Failed0, End1];
    MisspeltLine(MisspeltWords);
    assert b[..0] == [] && b[0] == LoaderText(MisspeltWords);
    FailStep(b, 0, []);
  }

  // ---------------------------------------------------------------------
  // Logs without record lines.

  function NoDataLog(): seq<string> {
    Batch(Start1, Loading1, [], "0", End1)
  }

  /** `ParseReport` of a log without record lines fails with `NoData`. */
  lemma NoDataParse()
    ensures ParseReport(NoDataLog()) == Err(NoData)
  {
    NoiseLines("0");
    var lines := NoDataLog();
    assert forall i :: 0 <= i < |lines| ==> Noise(lines[i]);
    NoCandidates(lines);
    EndStep(lines, []);
  }
}

/** The sample logs of the older extractor's tests, through `processReport`. */
module LegacyFixtures {
  import opened Results
  import opened ArcReport
  import opened ArcProcess
  import opened LegacyArc
  import opened ArcFixtures

  /** The seven-record log gives the header row and seven record rows, the
      first of which holds the first record's values. */
  method LegacyContent() returns (r: Result<seq<seq<string>>, LegacyError>)
    ensures r.Ok? && |r.value| == 8
    ensures r.value[0] == ["Sr.No", "WPRN", "PremiseID"]
    ensures r.value[1] == ["SKSZPUB0257-1", "2607303", "2306982"]
  {
    r := ProcessReport(ValidData());
    Agreement(ValidData(), r);
    ValidParse();
  }

  /** Two loader runs without records give `NoRecords`. */
  method LegacyNoRecords() returns (r: Result<seq<seq<string>>, LegacyError>)
    ensures r == Err(NoRecords)
  {
    var lines := NoDataLog() + Batch(Start2, Loading2, [], "0", End2);
    assert Candidates(lines) == [] by {
      NoiseLines("0");
      assert Noise(Start2) && Noise(Loading2) && Noise(End2);
      NoCandidates(lines);
    }
    r := ProcessReport(lines);
  }
}
