/** The extractor of the top-level package (`ParseReport` in arc.go): it keeps
    the lines that start with `Sr.No`, deletes their semicolons, scans each one
    for its three values and collects one record per line, in input order. A
    record line that does not scan aborts the whole parse, and a parse that
    finds no record line is an error too. */
module ArcReport {
  import opened Results
  import opened Text
  import opened LineScan
  import opened Collect

  /** The prefix that marks a record line. */
  const DataPrefix: string := "Sr.No"

  /** One extracted line (`reportLine`). */
  datatype Record = Record(serialNumber: string, wprn: string, premiseId: string)

  /** The records of one input, in the order of their lines (`Report`). */
  type Report = seq<Record>

  /** Why a parse fails: a record line that does not fit the format (the error
      names the line as it was after its semicolons were deleted), or an input
      without any record line. */
  datatype ParseError =
    | MalformedLine(line: string)
    | NoData

  /** `isLineWithData`: the line starts with `Sr.No`. */
  predicate IsLineWithData(l: string) {
    HasPrefix(l, DataPrefix)
  }

  /** A value a record can hold: a scanned token that has no semicolon. */
  predicate ValidField(f: string) {
    IsToken(f) && ';' !in f
  }

  predicate ValidRecord(r: Record) {
    ValidField(r.serialNumber) && ValidField(r.wprn) && ValidField(r.premiseId)
  }

  /** The work done on one record line: delete every `;`, then scan. */
  function ParseLine(l: string): (r: Result<Record, ParseError>)
    ensures r.Ok? ==> ValidRecord(r.value)
    ensures r.Err? ==> r.error == MalformedLine(Delete(l, ';'))
  {
    var stripped := Delete(l, ';');
    match Scan(stripped)
    case None => Err(MalformedLine(stripped))
    case Some(c) =>
      FieldsAvoid(stripped, ';');
      Ok(Record(c.srNo, c.wprn, c.premiseId))
  }

  /** The captures a record holds, as the scan produced them. */
  function CapturesOf(r: Record): Captures {
    Captures(r.serialNumber, r.wprn, r.premiseId)
  }

  /** A line is accepted, with exactly the values in its pattern, whenever
      deleting its semicolons leaves the nine pattern words and any further
      fields separated by white space, with no white space before the first. */
  lemma ParseLineAccepts(l: string, gaps: seq<string>, r: Record, extra: seq<string>)
    requires |gaps| == 9 + |extra| + 1
    requires WellSpaced(gaps) && gaps[0] == []
    requires IsToken(r.serialNumber) && IsToken(r.wprn) && IsToken(r.premiseId)
    requires forall i :: 0 <= i < |extra| ==> IsToken(extra[i])
    requires Delete(l, ';') == Join(gaps, Pattern(CapturesOf(r)) + extra)
    ensures ParseLine(l) == Ok(r)
  {
    ScanAccepts(Delete(l, ';'), gaps, CapturesOf(r), extra);
  }

  /** Every accepted line has that shape: deleting its semicolons leaves the
      nine pattern words, with the values of the record it yields, followed by
      the rest of its fields, joined by well-spaced white space. */
  lemma ParseLineShape(l: string)
    requires ParseLine(l).Ok?
    ensures var s := Delete(l, ';');
            && |Gaps(s)| == |Fields(s)| + 1
            && WellSpaced(Gaps(s))
            && s == Join(Gaps(s), Pattern(CapturesOf(ParseLine(l).value)) + Fields(s)[9..])
  {
    ScanShape(Delete(l, ';'));
  }

  /** The record lines of an input, in order: what the loop of `ParseReport`
      does not skip. */
  function Candidates(lines: seq<string>): (cs: seq<string>)
    ensures |cs| <= |lines|
    decreases |lines|
  {
    if lines == [] then []
    else if IsLineWithData(lines[0]) then [lines[0]] + Candidates(lines[1..])
    else Candidates(lines[1..])
  }

  /** A line is kept exactly when it is in the input and is a record line. */
  lemma {:induction false} CandidatesMembers(lines: seq<string>, l: string)
    ensures l in Candidates(lines) <==> l in lines && IsLineWithData(l)
    decreases |lines|
  {
    if lines != [] {
      assert lines == [lines[0]] + lines[1..];
      CandidatesMembers(lines[1..], l);
    }
  }

  /** The filter works line by line, so it distributes over concatenation. */
  lemma {:induction false} CandidatesConcat(a: seq<string>, b: seq<string>)
    ensures Candidates(a + b) == Candidates(a) + Candidates(b)
    decreases |a|
  {
    if a == [] {
      assert a + b == b;
    } else {
      assert (a + b)[0] == a[0];
      assert (a + b)[1..] == a[1..] + b;
      CandidatesConcat(a[1..], b);
    }
  }

  /** Keeping the record lines of a sequence of record lines keeps them all. */
  lemma {:induction false} CandidatesOfCandidates(lines: seq<string>)
    ensures Candidates(Candidates(lines)) == Candidates(lines)
    decreases |lines|
  {
    if lines != [] {
      CandidatesOfCandidates(lines[1..]);
      if IsLineWithData(lines[0]) {
        var cs := [lines[0]] + Candidates(lines[1..]);
        assert cs[0] == lines[0] && cs[1..] == Candidates(lines[1..]);
      }
    }
  }

  /** `ParseReport`: the records of every record line, in input order; the
      error of the first malformed record line; or `NoData` when the input
      holds no record line. A line that does not start with `Sr.No` plays no
      part. `ParseReportSpec` states this in full. */
  function ParseReport(lines: seq<string>): (r: Result<Report, ParseError>)
    ensures r.Ok? ==> r.value != []
  {
    match ParseAll(Candidates(lines), ParseLine)
    case Err(e) => Err(e)
    case Ok(report) => if |report| == 0 then Err(NoData) else Ok(report)
  }

  /** What `ParseReport` returns, against the record lines of its input:
      one record per record line, each the parse of its line, when all of
      them parse and there is at least one; `NoData` exactly when there is
      none; otherwise the error of the first record line that fails, which
      names that line with its semicolons deleted. */
  lemma ParseReportSpec(lines: seq<string>)
    ensures ParseReport(lines).Ok? ==> |ParseReport(lines).value| == |Candidates(lines)|
    ensures ParseReport(lines).Ok? ==>
              forall i :: 0 <= i < |Candidates(lines)| ==> ParseLine(Candidates(lines)[i]) == Ok(ParseReport(lines).value[i])
    ensures ParseReport(lines) == Err(NoData) <==> Candidates(lines) == []
    ensures ParseReport(lines).Err? && ParseReport(lines).error != NoData <==>
              exists k :: FirstError(Candidates(lines), ParseLine, k)
    ensures ParseReport(lines).Err? && ParseReport(lines).error != NoData ==>
              exists k :: FirstError(Candidates(lines), ParseLine, k)
                       && ParseReport(lines).error == MalformedLine(Delete(Candidates(lines)[k], ';'))
  {
    var cs := Candidates(lines);
    ParseAllValues(cs, ParseLine);
    if ParseAll(cs, ParseLine).Err? {
      ParseAllError(cs, ParseLine);
    }
    if exists k :: FirstError(cs, ParseLine, k) {
      var k :| FirstError(cs, ParseLine, k);
      assert !AllOk(cs, ParseLine);
    }
  }

  /** A parse of record lines can only fail on a malformed line. */
  lemma ParseAllMalformed(cs: seq<string>)
    requires ParseAll(cs, ParseLine).Err?
    ensures ParseAll(cs, ParseLine).error.MalformedLine?
  {
    ParseAllError(cs, ParseLine);
  }

  /** The record lines of an input are those of any prefix followed by those
      of the rest. */
  lemma CandidatesSplit(lines: seq<string>, i: int)
    requires 0 <= i <= |lines|
    ensures Candidates(lines) == Candidates(lines[..i]) + Candidates(lines[i..])
  {
    var a, b := lines[..i], lines[i..];
    assert lines == a + b;
    CandidatesConcat(a, b);
  }

  /** One more line read: the record lines so far grow by that line exactly
      when it is a record line. */
  lemma CandidatesStep(lines: seq<string>, i: int)
    requires 0 <= i < |lines|
    ensures Candidates(lines[..i + 1]) ==
              if IsLineWithData(lines[i]) then Candidates(lines[..i]) + [lines[i]] else Candidates(lines[..i])
  {
    assert lines[..i + 1] == lines[..i] + [lines[i]];
    CandidatesConcat(lines[..i], [lines[i]]);
    assert Candidates(lines[..i]) + [] == Candidates(lines[..i]);
  }

  /** Once the lines read so far fail, the rest of the input is not looked at. */
  lemma FailureStops(lines: seq<string>, i: int)
    requires 0 <= i <= |lines|
    requires ParseAll(Candidates(lines[..i]), ParseLine).Err?
    ensures ParseAll(Candidates(lines), ParseLine) == ParseAll(Candidates(lines[..i]), ParseLine)
  {
    CandidatesSplit(lines, i);
    ParseAllStops(Candidates(lines[..i]), Candidates(lines[i..]), ParseLine);
  }

  /** The loop steps over a line that is not a record line. */
  lemma SkipStep(lines: seq<string>, i: int)
    requires 0 <= i < |lines| && !IsLineWithData(lines[i])
    ensures ParseAll(Candidates(lines[..i + 1]), ParseLine) == ParseAll(Candidates(lines[..i]), ParseLine)
  {
    CandidatesStep(lines, i);
  }

  /** The loop appends the record of a record line that parses. */
  lemma KeepStep(lines: seq<string>, i: int, report: Report, rec: Record)
    requires 0 <= i < |lines| && IsLineWithData(lines[i])
    requires ParseAll(Candidates(lines[..i]), ParseLine) == Ok(report)
    requires ParseLine(lines[i]) == Ok(rec)
    ensures ParseAll(Candidates(lines[..i + 1]), ParseLine) == Ok(report + [rec])
  {
    CandidatesStep(lines, i);
    ParseAllSnoc(Candidates(lines[..i]), lines[i], ParseLine);
  }

  /** A record line that does not parse ends the parse with its error. */
  lemma StopStep(lines: seq<string>, i: int, report: Report)
    requires 0 <= i < |lines| && IsLineWithData(lines[i])
    requires ParseAll(Candidates(lines[..i]), ParseLine) == Ok(report)
    requires ParseLine(lines[i]).Err?
    ensures ParseAll(Candidates(lines), ParseLine) == Err(ParseLine(lines[i]).error)
  {
    CandidatesStep(lines, i);
    ParseAllSnoc(Candidates(lines[..i]), lines[i], ParseLine);
    FailureStops(lines, i + 1);
  }

  /** The loop returns the error of a record line that does not parse, and
      that is the result of the whole parse. */
  lemma FailStep(lines: seq<string>, i: int, report: Report)
    requires 0 <= i < |lines| && IsLineWithData(lines[i])
    requires ParseAll(Candidates(lines[..i]), ParseLine) == Ok(report)
    requires ParseLine(lines[i]).Err?
    ensures ParseReport(lines) == Err(ParseLine(lines[i]).error)
  {
    StopStep(lines, i, report);
  }

  /** After the last line, the report is tested for emptiness. */
  lemma EndStep(lines: seq<string>, report: Report)
    requires ParseAll(Candidates(lines), ParseLine) == Ok(report)
    ensures ParseReport(lines) == if |report| == 0 then Err(NoData) else Ok(report)
  {
  }

  /** `ParseReport` as the Go code runs it: one pass over the lines, then a
      test for an empty report. It computes the function above. */
  method ScanReport(lines: seq<string>) returns (r: Result<Report, ParseError>)
    ensures r == ParseReport(lines)
  {
    r := ScanRecords(lines);
    if r.Ok? && |r.value| == 0 {
      r := Err(NoData);
    }
  }

  /** The loop of `ParseReport`: it skips the lines that are not record
      lines, returns at the first record line the scan rejects, and otherwise
      collects the record of every record line. */
  method ScanRecords(lines: seq<string>) returns (r: Result<Report, ParseError>)
    ensures r == ParseAll(Candidates(lines), ParseLine)
  {
    var report: Report := [];
    var i := 0;
    while i < |lines|
      invariant 0 <= i <= |lines|
      invariant ParseAll(Candidates(lines[..i]), ParseLine) == Ok(report)
    {
      if IsLineWithData(lines[i]) {
        var p := ParseLine(lines[i]);
        if p.Err? {
          StopStep(lines, i, report);
          return Err(p.error);
        }
        KeepStep(lines, i, report, p.value);
        report := report + [p.value];
      } else {
        SkipStep(lines, i);
      }
      i := i + 1;
    }
    assert lines[..i] == lines;
    return Ok(report);
  }

  /** Parsing two inputs one after the other: the records of both, in order,
      when both parse; otherwise the first malformed line in reading order,
      and an input without record lines adds nothing. */
  lemma ParseReportConcat(a: seq<string>, b: seq<string>)
    ensures ParseReport(a).Ok? && ParseReport(b).Ok? ==>
              ParseReport(a + b) == Ok(ParseReport(a).value + ParseReport(b).value)
    ensures ParseReport(a).Err? && ParseReport(a).error != NoData ==> ParseReport(a + b) == ParseReport(a)
    ensures ParseReport(a) == Err(NoData) ==> ParseReport(a + b) == ParseReport(b)
    ensures ParseReport(a).Ok? && ParseReport(b).Err? && ParseReport(b).error != NoData ==>
              ParseReport(a + b) == ParseReport(b)
    ensures ParseReport(a).Ok? && ParseReport(b) == Err(NoData) ==> ParseReport(a + b) == ParseReport(a)
  {
    CandidatesConcat(a, b);
    ParseAllConcat(Candidates(a), Candidates(b), ParseLine);
    if ParseAll(Candidates(a), ParseLine).Err? {
      ParseAllMalformed(Candidates(a));
    }
    assert Candidates(a) == [] ==> Candidates(a) + Candidates(b) == Candidates(b);
    if ParseReport(b) == Err(NoData) {
      ParseReportSpec(b);
      assert Candidates(a) + Candidates(b) == Candidates(a);
    }
  }

  /** Only the record lines matter: parsing them alone gives the same result. */
  lemma ParseReportIgnoresNoise(lines: seq<string>)
    ensures ParseReport(Candidates(lines)) == ParseReport(lines)
  {
    CandidatesOfCandidates(lines);
  }

  /** Inserting a line that is not a record line anywhere changes nothing. */
  lemma NoiseInsertion(a: seq<string>, l: string, b: seq<string>)
    requires !IsLineWithData(l)
    ensures ParseReport(a + [l] + b) == ParseReport(a + b)
  {
    CandidatesConcat(a + [l], b);
    CandidatesConcat(a, [l]);
    CandidatesConcat(a, b);
    assert Candidates([l]) == [];
    assert Candidates(a) + [] == Candidates(a);
  }
}
