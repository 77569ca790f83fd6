/** The scan both parsers apply to a record line once its semicolons are gone:
    Go's `fmt.Sscanf(l, "Sr.No = %s WPRN = %s PremiseID = %s", ...)`.

    Under `fmt`'s rules a space in the format needs at least one white-space
    character in the input, a literal word must match the input exactly, and
    `%s` skips white space and then takes a maximal non-empty run of non-space
    characters. On a line that starts with `Sr.No` this comes to a test on the
    line's fields: there are at least nine, and apart from the three captured
    ones they read `Sr.No = _ WPRN = _ PremiseID = _`. Whatever follows the
    ninth field is not looked at. */
module LineScan {
  import opened Results
  import opened Text

  const SerialLabel: string := "Sr.No"
  const WprnLabel: string := "WPRN"
  const PremiseLabel: string := "PremiseID"
  const Equals: string := "="

  /** The three values one successful scan stores. */
  datatype Captures = Captures(srNo: string, wprn: string, premiseId: string)

  /** The first nine fields of a line that matches, given what it captures. */
  function Pattern(c: Captures): seq<string> {
    [SerialLabel, Equals, c.srNo, WprnLabel, Equals, c.wprn, PremiseLabel, Equals, c.premiseId]
  }

  /** The fields of a line that the scan accepts. */
  predicate Matches(fs: seq<string>) {
    && |fs| >= 9
    && fs[0] == SerialLabel && fs[1] == Equals
    && fs[3] == WprnLabel && fs[4] == Equals
    && fs[6] == PremiseLabel && fs[7] == Equals
  }

  /** A value `%s` can capture: non-empty, without white space. */
  predicate IsToken(t: string) {
    t != [] && SpaceFree(t)
  }

  /** The scan of one line: the three captured values, or `None` when the
      line does not fit the format. */
  function Scan(l: string): (r: Option<Captures>)
    ensures r.Some? ==> IsToken(r.value.srNo) && IsToken(r.value.wprn) && IsToken(r.value.premiseId)
    ensures r.Some? <==> Matches(Fields(l))
  {
    var fs := Fields(l);
    FieldsAreTokens(l);
    if Matches(fs) then Some(Captures(fs[2], fs[5], fs[8])) else None
  }

  /** The scan accepts every line made of the nine pattern words followed by
      any further fields, starting with its first word and with any white
      space between the words (at least one character) and after the last,
      and captures exactly the three values in the pattern. */
  lemma ScanAccepts(l: string, gaps: seq<string>, c: Captures, extra: seq<string>)
    requires |gaps| == 9 + |extra| + 1
    requires WellSpaced(gaps) && gaps[0] == []
    requires IsToken(c.srNo) && IsToken(c.wprn) && IsToken(c.premiseId)
    requires forall i :: 0 <= i < |extra| ==> IsToken(extra[i])
    requires l == Join(gaps, Pattern(c) + extra)
    ensures Scan(l) == Some(c)
  {
    PatternWords(c);
    assert AllWords(extra);
    AllWordsConcat(Pattern(c), extra);
    FieldsOfJoin(gaps, Pattern(c) + extra);
  }

  /** The labels of the format are words a line can hold. */
  lemma LabelsAreTokens()
    ensures IsToken(SerialLabel) && IsToken(WprnLabel) && IsToken(PremiseLabel) && IsToken(Equals)
  {
    assert forall i :: 0 <= i < 5 ==> !IsSpace(SerialLabel[i]);
    assert forall i :: 0 <= i < 4 ==> !IsSpace(WprnLabel[i]);
    assert forall i :: 0 <= i < 9 ==> !IsSpace(PremiseLabel[i]);
    assert !IsSpace(Equals[0]);
  }

  /** The nine words of the pattern are words whenever the captures are. */
  lemma PatternWords(c: Captures)
    requires IsToken(c.srNo) && IsToken(c.wprn) && IsToken(c.premiseId)
    ensures AllWords(Pattern(c))
  {
    LabelsAreTokens();
    var p := Pattern(c);
    forall i | 0 <= i < 9 ensures p[i] != [] && SpaceFree(p[i]) {
    }
  }

  /** Conversely, every line the scan accepts is such a line: its nine pattern
      words with the captured values, then its remaining fields, joined by its
      own well-spaced gaps. */
  lemma ScanShape(l: string)
    requires Scan(l).Some?
    ensures |Gaps(l)| == |Fields(l)| + 1
    ensures WellSpaced(Gaps(l))
    ensures l == Join(Gaps(l), Pattern(Scan(l).value) + Fields(l)[9..])
  {
    var fs := Fields(l);
    assert fs == Pattern(Scan(l).value) + fs[9..];
    JoinOfFields(l);
    GapsWellSpaced(l);
  }
}
