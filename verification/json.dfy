/** The JSON the top-level package writes for a report: Go's `json.Marshal` of
    a `[]reportLine`, that is a compact array of objects with the keys
    `sr_no`, `wprn` and `premise_id`, in that order, and strings escaped the way
    `encoding/json` escapes them by default (HTML-safe). A decoder for exactly
    this shape recovers every report from its encoding. */
module Json {
  import opened Results
  import opened ArcReport
  import Text

  const Backslash: char := '\\'
  const Quote: char := '"'
  const Backspace: char := '\U{0008}'
  const FormFeed: char := '\U{000C}'
  const LineSeparator: char := '\U{2028}'
  const ParagraphSeparator: char := '\U{2029}'

  const HexDigits: string := "0123456789abcdef"

  /** The lower-case hexadecimal digit of `n`. */
  function Hex(n: int): (d: char)
    requires 0 <= n < 16
    ensures HexValue(d) == n
  {
    HexDigits[n]
  }

  predicate IsHex(d: char) {
    ('0' <= d <= '9') || ('a' <= d <= 'f') || ('A' <= d <= 'F')
  }

  /** The value of a hexadecimal digit, in either case. */
  function HexValue(d: char): (n: int)
    ensures IsHex(d) ==> 0 <= n < 16
  {
    if '0' <= d <= '9' then d as int - '0' as int
    else if 'a' <= d <= 'f' then d as int - 'a' as int + 10
    else if 'A' <= d <= 'F' then d as int - 'A' as int + 10
    else -1
  }

  /** A character `encoding/json` writes as it is: not a control character,
      not `"` or `\`, not one of the HTML-sensitive `<`, `>`, `&`, and not
      U+2028 or U+2029. */
  predicate Plain(c: char) {
    && c >= ' '
    && c != Quote && c != Backslash
    && c != '<' && c != '>' && c != '&'
    && c != LineSeparator && c != ParagraphSeparator
  }

  /** How one character is written inside a JSON string. */
  function EscapeChar(c: char): (r: string)
    ensures Plain(c) <==> r == [c]
    ensures !Plain(c) ==> |r| >= 2 && r[0] == Backslash
  {
    if c == Quote || c == Backslash then [Backslash, c]
    else if c == Backspace then "\\b"
    else if c == FormFeed then "\\f"
    else if c == '\n' then "\\n"
    else if c == '\r' then "\\r"
    else if c == '\t' then "\\t"
    else if c < ' ' || c == '<' || c == '>' || c == '&' then
      "\\u00" + [Hex(c as int / 16), Hex(c as int % 16)]
    else if c == LineSeparator || c == ParagraphSeparator then
      "\\u202" + [Hex(c as int % 16)]
    else [c]
  }

  /** A string's characters, each escaped. */
  function EscapeString(s: string): (r: string)
    ensures |r| >= |s|
    decreases |s|
  {
    if s == [] then [] else EscapeChar(s[0]) + EscapeString(s[1..])
  }

  /** A string value: the escaped characters between quotes. */
  function MarshalString(s: string): string {
    [Quote] + EscapeString(s) + [Quote]
  }

  const SrNoKey: string := "{\"sr_no\":"
  const WprnKey: string := ",\"wprn\":"
  const PremiseKey: string := ",\"premise_id\":"

  /** One `reportLine` as a JSON object. */
  function MarshalRecord(r: Record): string {
    SrNoKey + (MarshalString(r.serialNumber)
      + (WprnKey + (MarshalString(r.wprn)
      + (PremiseKey + (MarshalString(r.premiseId) + "}")))))
  }

  /** The objects of a report separated by commas. */
  function MarshalRecords(report: Report): string
    decreases |report|
  {
    if report == [] then []
    else if |report| == 1 then MarshalRecord(report[0])
    else MarshalRecord(report[0]) + "," + MarshalRecords(report[1..])
  }

  /** `json.Marshal` of a report: a JSON array of its records. */
  function MarshalReport(report: Report): (r: string)
    ensures |r| >= 2 && r[0] == '[' && r[|r| - 1] == ']'
  {
    "[" + MarshalRecords(report) + "]"
  }

  // ---------------------------------------------------------------------
  // A decoder for the same shape.

  /** The text after `lit` when `s` begins with it. */
  function Expect(lit: string, s: string): (r: Option<string>)
    ensures r.Some? <==> |lit| <= |s| && s[..|lit|] == lit
    ensures r.Some? ==> s == lit + r.value
  {
    if |lit| <= |s| && s[..|lit|] == lit then Some(s[|lit|..]) else None
  }

  /** The character a `\uXXXX` escape stands for, if the four characters are
      hexadecimal digits naming a character (not half of a surrogate pair). */
  function Unicode(h: string): (r: Option<char>)
    requires |h| == 4
  {
    if IsHex(h[0]) && IsHex(h[1]) && IsHex(h[2]) && IsHex(h[3]) then
      var n := ((HexValue(h[0]) * 16 + HexValue(h[1])) * 16 + HexValue(h[2])) * 16 + HexValue(h[3]);
      if 0xD800 <= n < 0xE000 then None else Some(n as char)
    else None
  }

  /** One escape sequence at the start of `s` (which begins with a
      backslash): the character it stands for and the text after it. */
  function ReadEscape(s: string): (r: Option<(char, string)>)
    requires |s| >= 1 && s[0] == Backslash
    ensures r.Some? ==> |r.value.1| < |s|
  {
    if |s| < 2 then None
    else
      var e := s[1];
      if e == Quote || e == Backslash || e == '/' then Some((e, s[2..]))
      else if e == 'b' then Some((Backspace, s[2..]))
      else if e == 'f' then Some((FormFeed, s[2..]))
      else if e == 'n' then Some(('\n', s[2..]))
      else if e == 'r' then Some(('\r', s[2..]))
      else if e == 't' then Some(('\t', s[2..]))
      else if e == 'u' && |s| >= 6 then
        match Unicode(s[2..6])
        case None => None
        case Some(c) => Some((c, s[6..]))
      else None
  }

  /** The characters of a string value after its opening quote, up to its
      closing quote, and the text after that. */
  function ReadString(s: string): (r: Option<(string, string)>)
    ensures r.Some? ==> |r.value.1| < |s|
    decreases |s|
  {
    if s == [] then None
    else if s[0] == Quote then Some(([], s[1..]))
    else if s[0] < ' ' then None
    else
      var step :=
        if s[0] == Backslash then ReadEscape(s) else Some((s[0], s[1..]));
      match step
      case None => None
      case Some((c, rest)) =>
        match ReadString(rest)
        case None => None
        case Some((t, after)) => Some(([c] + t, after))
  }

  /** A quoted string value and the text after it. */
  function ReadValue(s: string): (r: Option<(string, string)>)
    ensures r.Some? ==> |r.value.1| < |s|
  {
    match Expect([Quote], s)
    case None => None
    case Some(rest) => ReadString(rest)
  }

  /** One object with the three keys in order, and the text after it. */
  function ReadRecord(s: string): (r: Option<(Record, string)>)
    ensures r.Some? ==> |r.value.1| < |s|
  {
    match Expect(SrNoKey, s)
    case None => None
    case Some(s1) =>
      match ReadValue(s1)
      case None => None
      case Some((srNo, s2)) =>
        match Expect(WprnKey, s2)
        case None => None
        case Some(s3) =>
          match ReadValue(s3)
          case None => None
          case Some((wprn, s4)) =>
            match Expect(PremiseKey, s4)
            case None => None
            case Some(s5) =>
              match ReadValue(s5)
              case None => None
              case Some((premiseId, s6)) =>
                match Expect("}", s6)
                case None => None
                case Some(s7) => Some((Record(srNo, wprn, premiseId), s7))
  }

  /** Objects separated by commas up to the closing bracket. */
  function ReadRecords(s: string): (r: Option<Report>)
    ensures r.Some? ==> |r.value| > 0
    decreases |s|
  {
    match ReadRecord(s)
    case None => None
    case Some((rec, rest)) =>
      if rest == "]" then Some([rec])
      else
        match Expect(",", rest)
        case None => None
        case Some(more) =>
          match ReadRecords(more)
          case None => None
          case Some(recs) => Some([rec] + recs)
  }

  /** A whole document: a report array and nothing after it. */
  function DecodeReport(s: string): (r: Option<Report>)
  {
    if s == "[]" then Some([])
    else
      match Expect("[", s)
      case None => None
      case Some(rest) => ReadRecords(rest)
  }

  // ---------------------------------------------------------------------
  // The decoder inverts the encoder.

  lemma ExpectLiteral(lit: string, rest: string)
    ensures Expect(lit, lit + rest) == Some(rest)
  {
    assert (lit + rest)[..|lit|] == lit;
    assert (lit + rest)[|lit|..] == rest;
  }

  /** Every escaped character reads back as itself. */
  lemma ReadEscapedChar(c: char, rest: string)
    requires !Plain(c)
    ensures ReadEscape(EscapeChar(c) + rest) == Some((c, rest))
  {
    if c == Quote || c == Backslash || c == Backspace || c == FormFeed
       || c == '\n' || c == '\r' || c == '\t' {
      ReadShortEscape(c, rest);
    } else if c < ' ' || c == '<' || c == '>' || c == '&' {
      ReadLatinEscape(c, rest);
    } else {
      ReadSeparatorEscape(c, rest);
    }
  }

  lemma ReadShortEscape(c: char, rest: string)
    requires c == Quote || c == Backslash || c == Backspace || c == FormFeed
             || c == '\n' || c == '\r' || c == '\t'
    ensures ReadEscape(EscapeChar(c) + rest) == Some((c, rest))
  {
    var s := EscapeChar(c) + rest;
    assert |EscapeChar(c)| == 2;
    assert s[2..] == rest;
  }

  lemma ReadLatinEscape(c: char, rest: string)
    requires c != Quote && c != Backslash && c != Backspace && c != FormFeed
             && c != '\n' && c != '\r' && c != '\t'
    requires c < ' ' || c == '<' || c == '>' || c == '&'
    ensures ReadEscape(EscapeChar(c) + rest) == Some((c, rest))
  {
    var s := EscapeChar(c) + rest;
    var n := c as int;
    assert EscapeChar(c) == "\\u00" + [Hex(n / 16), Hex(n % 16)];
    assert s[6..] == rest;
    assert s[2..6] == ['0', '0', Hex(n / 16), Hex(n % 16)];
    assert ((0 * 16 + 0) * 16 + n / 16) * 16 + n % 16 == n;
  }

  lemma ReadSeparatorEscape(c: char, rest: string)
    requires c == LineSeparator || c == ParagraphSeparator
    ensures ReadEscape(EscapeChar(c) + rest) == Some((c, rest))
  {
    var s := EscapeChar(c) + rest;
    var n := c as int;
    assert EscapeChar(c) == "\\u202" + [Hex(n % 16)];
    assert s[6..] == rest;
    assert s[2..6] == ['2', '0', '2', Hex(n % 16)];
    assert ((2 * 16 + 0) * 16 + 2) * 16 + n % 16 == n;
  }

  /** A string value reads back as the string it encodes, for every string. */
  lemma {:induction false} ReadEscapedString(t: string, rest: string)
    ensures ReadString(EscapeString(t) + [Quote] + rest) == Some((t, rest))
    decreases |t|
  {
    if t == [] {
      ReadStringEnd(rest);
      assert EscapeString(t) + [Quote] + rest == [Quote] + rest;
    } else {
      var e := EscapeChar(t[0]);
      var m := EscapeString(t[1..]);
      var tail := m + [Quote] + rest;
      assert EscapeString(t) + [Quote] + rest == e + tail by {
        assert EscapeString(t) == e + m;
        Text.Assoc(e, m, [Quote]);
        Text.Assoc(e, m + [Quote], rest);
      }
      ReadEscapedString(t[1..], rest);
      ReadStringStep(t[0], tail, t[1..], rest);
      assert [t[0]] + t[1..] == t;
    }
  }

  /** The closing quote ends a string value. */
  lemma ReadStringEnd(rest: string)
    ensures ReadString([Quote] + rest) == Some(([], rest))
  {
    assert ([Quote] + rest)[1..] == rest;
  }

  /** One escaped character, then the rest of a string value. */
  lemma ReadStringStep(c: char, tail: string, t: string, rest: string)
    requires ReadString(tail) == Some((t, rest))
    ensures ReadString(EscapeChar(c) + tail) == Some(([c] + t, rest))
  {
    var s := EscapeChar(c) + tail;
    if Plain(c) {
      assert s[0] == c && s[1..] == tail;
    } else {
      ReadEscapedChar(c, tail);
    }
  }

  lemma ReadMarshalledString(t: string, rest: string)
    ensures ReadValue(MarshalString(t) + rest) == Some((t, rest))
  {
    var inner := EscapeString(t) + [Quote] + rest;
    assert MarshalString(t) + rest == [Quote] + inner;
    ExpectLiteral([Quote], inner);
    ReadEscapedString(t, rest);
  }

  /** A record's object followed by more text, grouped from the right. */
  lemma MarshalRecordThen(r: Record, rest: string)
    ensures MarshalRecord(r) + rest ==
              SrNoKey + (MarshalString(r.serialNumber)
                + (WprnKey + (MarshalString(r.wprn)
                + (PremiseKey + (MarshalString(r.premiseId) + ("}" + rest))))))
  {
    var m3 := MarshalString(r.premiseId) + "}";
    var k3 := PremiseKey + m3;
    var m2 := MarshalString(r.wprn) + k3;
    var k2 := WprnKey + m2;
    var m1 := MarshalString(r.serialNumber) + k2;
    Text.Assoc(SrNoKey, m1, rest);
    Text.Assoc(MarshalString(r.serialNumber), k2, rest);
    Text.Assoc(WprnKey, m2, rest);
    Text.Assoc(MarshalString(r.wprn), k3, rest);
    Text.Assoc(PremiseKey, m3, rest);
    Text.Assoc(MarshalString(r.premiseId), "}", rest);
  }

  /** A key and its string value read back, whatever follows them. */
  lemma ReadKeyValue(key: string, v: string, rest: string)
    ensures Expect(key, key + (MarshalString(v) + rest)) == Some(MarshalString(v) + rest)
    ensures ReadValue(MarshalString(v) + rest) == Some((v, rest))
  {
    ExpectLiteral(key, MarshalString(v) + rest);
    ReadMarshalledString(v, rest);
  }

  /** An object reads back as its record. */
  lemma ReadMarshalledRecord(r: Record, rest: string)
    ensures ReadRecord(MarshalRecord(r) + rest) == Some((r, rest))
  {
    MarshalRecordThen(r, rest);
    ReadKeyValue(SrNoKey, r.serialNumber,
      WprnKey + (MarshalString(r.wprn) + (PremiseKey + (MarshalString(r.premiseId) + ("}" + rest)))));
    ReadKeyValue(WprnKey, r.wprn, PremiseKey + (MarshalString(r.premiseId) + ("}" + rest)));
    ReadKeyValue(PremiseKey, r.premiseId, "}" + rest);
    ExpectLiteral("}", rest);
  }

  lemma {:induction false} ReadMarshalledRecords(report: Report)
    requires report != []
    ensures ReadRecords(MarshalRecords(report) + "]") == Some(report)
    decreases |report|
  {
    if |report| == 1 {
      ReadLastRecord(report[0]);
      assert report == [report[0]];
    } else {
      var more := MarshalRecords(report[1..]) + "]";
      assert MarshalRecords(report) + "]" == MarshalRecord(report[0]) + ("," + more) by {
        Text.Assoc(MarshalRecord(report[0]) + ",", MarshalRecords(report[1..]), "]");
        Text.Assoc(MarshalRecord(report[0]), ",", more);
      }
      ReadMarshalledRecords(report[1..]);
      ReadRecordThenMore(report[0], more, report[1..]);
      assert report == [report[0]] + report[1..];
    }
  }

  /** The last object, followed by the closing bracket. */
  lemma ReadLastRecord(rec: Record)
    ensures ReadRecords(MarshalRecord(rec) + "]") == Some([rec])
  {
    ReadMarshalledRecord(rec, "]");
  }

  /** An object, a comma, then more objects. */
  lemma ReadRecordThenMore(rec: Record, more: string, recs: Report)
    requires ReadRecords(more) == Some(recs)
    ensures ReadRecords(MarshalRecord(rec) + ("," + more)) == Some([rec] + recs)
  {
    var after := "," + more;
    ReadMarshalledRecord(rec, after);
    ExpectLiteral(",", more);
    assert after != "]" by {
      assert after[0] == ',';
    }
  }

  /** Decoding inverts `json.Marshal` on every report. */
  lemma DecodeMarshalled(report: Report)
    ensures DecodeReport(MarshalReport(report)) == Some(report)
  {
    if report == [] {
      assert MarshalReport(report) == "[]";
    } else {
      var body := MarshalRecords(report) + "]";
      assert MarshalReport(report) == "[" + body;
      ReadMarshalledRecords(report);
      ExpectLiteral("[", body);
      assert |MarshalRecord(report[0])| > 2;
      assert MarshalReport(report) != "[]";
    }
  }

  /** Escaping leaves a string unchanged exactly when every character is
      written as it is. */
  lemma {:induction false} EscapeIdentity(s: string)
    ensures EscapeString(s) == s <==> forall i :: 0 <= i < |s| ==> Plain(s[i])
  {
    if forall i :: 0 <= i < |s| ==> Plain(s[i]) {
      PlainUnescaped(s);
    }
    if EscapeString(s) == s {
      UnescapedPlain(s);
    }
  }

  lemma {:induction false} PlainUnescaped(s: string)
    requires forall i :: 0 <= i < |s| ==> Plain(s[i])
    ensures EscapeString(s) == s
    decreases |s|
  {
    if s != [] {
      assert Plain(s[0]);
      assert forall i :: 0 <= i < |s[1..]| ==> Plain(s[1..][i]) by {
        forall i | 0 <= i < |s[1..]| ensures Plain(s[1..][i]) {
          assert s[1..][i] == s[i + 1];
        }
      }
      PlainUnescaped(s[1..]);
      assert s == [s[0]] + s[1..];
    }
  }

  lemma {:induction false} UnescapedPlain(s: string)
    requires EscapeString(s) == s
    ensures forall i :: 0 <= i < |s| ==> Plain(s[i])
    decreases |s|
  {
    if s != [] {
      var tail := EscapeString(s[1..]);
      assert EscapeString(s) == EscapeChar(s[0]) + tail;
      assert |EscapeChar(s[0])| <= 1 by {
        assert |tail| >= |s[1..]|;
      }
      assert tail == s[1..] by {
        assert EscapeString(s)[1..] == tail;
      }
      UnescapedPlain(s[1..]);
      forall i | 0 <= i < |s| ensures Plain(s[i]) {
        if i > 0 {
          assert s[i] == s[1..][i - 1];
        }
      }
    }
  }
}
