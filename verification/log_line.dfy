/** Record lines as the ArcTool loader writes them, and the proof that the
    extractor reads back exactly the values written into them. */
module LoaderLine {
  import opened Results
  import opened Text
  import opened LineScan
  import opened ArcReport

  /** The separators of a record line as the ArcTool loader writes it:
      `Sr.No = <a>; WPRN = <b>; PremiseID = <c>`. */
  const LogGaps: seq<string> := ["", " ", " ", "; ", " ", " ", "; ", " ", " ", ""]

  /** The same separators once the semicolons are deleted. */
  const ScanGaps: seq<string> := ["", " ", " ", " ", " ", " ", " ", " ", " ", ""]

  /** A line as the ArcTool loader writes it, from its nine words:
      `w0 w1 w2; w3 w4 w5; w6 w7 w8`. */
  function LoaderText(toks: seq<string>): string
    requires |toks| == 9
  {
    Join(LogGaps, toks)
  }

  /** A record line as the ArcTool loader writes it. */
  function LogLine(r: Record): string {
    LoaderText(Pattern(CapturesOf(r)))
  }

  lemma DeleteSeparators()
    ensures Delete("; ", ';') == " " && Delete(" ", ';') == " " && Delete("", ';') == ""
  {
  }

  lemma LogGapsStripped()
    ensures forall i :: 0 <= i < |LogGaps| ==> Delete(LogGaps[i], ';') == ScanGaps[i]
  {
    DeleteSeparators();
    forall i | 0 <= i < 10 ensures Delete(LogGaps[i], ';') == ScanGaps[i] {
      if i == 0 || i == 9 {
        assert LogGaps[i] == "" && ScanGaps[i] == "";
      } else if i == 3 || i == 6 {
        assert LogGaps[i] == "; " && ScanGaps[i] == " ";
      } else {
        assert LogGaps[i] == " " && ScanGaps[i] == " ";
      }
    }
  }

  lemma ScanGapsWellSpaced()
    ensures WellSpaced(ScanGaps)
  {
  }

  /** Words without semicolons survive the deletion whole. */
  lemma WordsKeptWhole(toks: seq<string>)
    requires forall i :: 0 <= i < |toks| ==> ';' !in toks[i]
    ensures forall i :: 0 <= i < |toks| ==> Delete(toks[i], ';') == toks[i]
  {
    forall i | 0 <= i < |toks| ensures Delete(toks[i], ';') == toks[i] {
      DeleteAbsent(toks[i], ';');
    }
  }

  /** Deleting the semicolons of a loader line leaves its words separated by
      single spaces. */
  lemma LoaderTextStripped(toks: seq<string>)
    requires |toks| == 9
    requires forall i :: 0 <= i < 9 ==> ';' !in toks[i]
    ensures Delete(LoaderText(toks), ';') == Join(ScanGaps, toks)
  {
    LogGapsStripped();
    WordsKeptWhole(toks);
    DeleteJoin(LogGaps, toks, ScanGaps, toks, ';');
  }

  /** A loader line whose first word is `Sr.No` is a record line. */
  lemma LoaderTextIsRecordLine(toks: seq<string>)
    requires |toks| == 9 && toks[0] == SerialLabel
    ensures IsLineWithData(LoaderText(toks))
  {
    assert LoaderText(toks) == "" + "Sr.No" + Join(LogGaps[1..], toks[1..]);
  }

  /** What the extractor makes of a loader line of nine words: their three
      values when the other six are the pattern words, and otherwise the
      error naming the line with its semicolons deleted. */
  lemma LoaderTextParses(toks: seq<string>)
    requires |toks| == 9
    requires forall i :: 0 <= i < 9 ==> IsToken(toks[i]) && ';' !in toks[i]
    ensures Matches(toks) ==> ParseLine(LoaderText(toks)) == Ok(Record(toks[2], toks[5], toks[8]))
    ensures !Matches(toks) ==> ParseLine(LoaderText(toks)) == Err(MalformedLine(Join(ScanGaps, toks)))
  {
    LoaderTextStripped(toks);
    ScanGapsWellSpaced();
    FieldsOfJoin(ScanGaps, toks);
  }

  /** A loader line is a record line, and it yields exactly its three values,
      whatever they are. */
  lemma LogLineParses(r: Record)
    requires ValidRecord(r)
    ensures IsLineWithData(LogLine(r))
    ensures ParseLine(LogLine(r)) == Ok(r)
  {
    var toks := Pattern(CapturesOf(r));
    LoaderTextIsRecordLine(toks);
    LoaderTextParses(toks);
  }
}
