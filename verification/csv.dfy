/** The CSV writer the reports are written with: Go's `encoding/csv` `Writer`
    with its defaults (comma `,`, rows ended by a single `\n`), and an
    RFC 4180 reader that recovers every row it writes.

    A field is quoted when it is non-empty and either is exactly `\.`,
    contains a comma, a double quote, `\r` or `\n`, or begins with white space;
    inside quotes a double quote is written twice and everything else as is. */
module Csv {
  import opened Results
  import opened Text

  const Comma: char := ','
  const Quote: char := '"'
  const Newline: char := '\n'

  /** The field Go quotes even though it holds no special character. */
  const EndOfData: string := "\\."

  /** A character that forces quoting wherever it occurs. */
  predicate Special(c: char) {
    c == Comma || c == Quote || c == '\r' || c == Newline
  }

  /** `fieldNeedsQuotes` of Go's CSV writer. */
  predicate NeedsQuotes(f: string) {
    && f != []
    && (|| f == EndOfData
        || (exists i :: 0 <= i < |f| && Special(f[i]))
        || IsSpace(f[0]))
  }

  /** The inside of a quoted field: every double quote written twice. */
  function DoubleQuotes(f: string): (r: string)
    ensures |r| >= |f|
    ensures Quote !in f ==> r == f
    decreases |f|
  {
    if f == [] then []
    else (if f[0] == Quote then [Quote, Quote] else [f[0]]) + DoubleQuotes(f[1..])
  }

  /** One field as the writer puts it on the line. */
  function EncodeField(f: string): (r: string)
    ensures !NeedsQuotes(f) ==> r == f
    ensures NeedsQuotes(f) ==> |r| >= |f| + 2 && r[0] == Quote && r[|r| - 1] == Quote
  {
    if NeedsQuotes(f) then [Quote] + DoubleQuotes(f) + [Quote] else f
  }

  /** The fields of one row, encoded and separated by commas. */
  function EncodeFields(row: seq<string>): string
    decreases |row|
  {
    if row == [] then []
    else if |row| == 1 then EncodeField(row[0])
    else EncodeField(row[0]) + [Comma] + EncodeFields(row[1..])
  }

  /** `Writer.Write`: one row and its line end. */
  function WriteRecord(row: seq<string>): (r: string)
    ensures r != [] && r[|r| - 1] == Newline
  {
    EncodeFields(row) + [Newline]
  }

  /** `Writer.WriteAll`: every row, in order. */
  function WriteAll(rows: seq<seq<string>>): (r: string)
    ensures rows == [] <==> r == []
    decreases |rows|
  {
    if rows == [] then [] else WriteRecord(rows[0]) + WriteAll(rows[1..])
  }

  /** Writing rows in two batches writes the same text as writing them all. */
  lemma {:induction false} WriteAllConcat(a: seq<seq<string>>, b: seq<seq<string>>)
    ensures WriteAll(a + b) == WriteAll(a) + WriteAll(b)
    decreases |a|
  {
    if a == [] {
      assert a + b == b;
    } else {
      assert (a + b)[0] == a[0];
      assert (a + b)[1..] == a[1..] + b;
      WriteAllConcat(a[1..], b);
    }
  }

  // ---------------------------------------------------------------------
  // An RFC 4180 reader.

  /** The text of an unquoted field: everything up to the next comma or line
      end. Returns the field and the text after it. */
  function ReadBare(s: string): (r: (string, string))
    ensures |r.0| + |r.1| == |s| && s == r.0 + r.1
    ensures Comma !in r.0 && Newline !in r.0
    ensures r.1 == [] || r.1[0] == Comma || r.1[0] == Newline
    decreases |s|
  {
    if s == [] || s[0] == Comma || s[0] == Newline then ([], s)
    else
      var (f, rest) := ReadBare(s[1..]);
      assert s == [s[0]] + s[1..];
      ([s[0]] + f, rest)
  }

  /** The text of a quoted field after its opening quote: up to the closing
      quote, with doubled quotes read as one. Returns the field and the text
      after the closing quote, or `None` when the quote is never closed. */
  function ReadQuoted(s: string): (r: Option<(string, string)>)
    ensures r.Some? ==> |r.value.1| < |s|
    decreases |s|
  {
    if s == [] then None
    else if s[0] == Quote then
      if |s| >= 2 && s[1] == Quote then
        match ReadQuoted(s[2..])
        case None => None
        case Some((f, rest)) => Some(([Quote] + f, rest))
      else Some(([], s[1..]))
    else
      match ReadQuoted(s[1..])
      case None => None
      case Some((f, rest)) => Some(([s[0]] + f, rest))
  }

  /** One field, quoted or not, and the text after it. */
  function ReadField(s: string): (r: Option<(string, string)>)
    ensures r.Some? ==> |r.value.1| <= |s|
  {
    if s != [] && s[0] == Quote then ReadQuoted(s[1..]) else Some(ReadBare(s))
  }

  /** One row: fields separated by commas up to a line end. Returns the row
      and the text after its line end. */
  function ReadRow(s: string): (r: Option<(seq<string>, string)>)
    ensures r.Some? ==> |r.value.0| > 0 && |r.value.1| < |s|
    decreases |s|
  {
    match ReadField(s)
    case None => None
    case Some((f, rest)) =>
      if rest == [] then None
      else if rest[0] == Newline then Some(([f], rest[1..]))
      else if rest[0] == Comma then
        match ReadRow(rest[1..])
        case None => None
        case Some((fs, after)) => Some(([f] + fs, after))
      else None
  }

  /** Every row of a document in which each row ends with a line end. */
  function ReadAll(s: string): (r: Option<seq<seq<string>>>)
    ensures r.Some? ==> forall i :: 0 <= i < |r.value| ==> |r.value[i]| > 0
    decreases |s|
  {
    if s == [] then Some([])
    else
      match ReadRow(s)
      case None => None
      case Some((row, rest)) =>
        match ReadAll(rest)
        case None => None
        case Some(rows) => Some([row] + rows)
  }

  // ---------------------------------------------------------------------
  // The reader inverts the writer.

  /** The closing quote is found as long as no quote follows it. */
  lemma {:induction false} ReadQuotedDoubled(f: string, rest: string)
    requires rest == [] || rest[0] != Quote
    ensures ReadQuoted(DoubleQuotes(f) + [Quote] + rest) == Some((f, rest))
    decreases |f|
  {
    if f == [] {
      assert DoubleQuotes(f) + [Quote] + rest == [Quote] + rest;
      assert ([Quote] + rest)[1..] == rest;
    } else {
      var tail := DoubleQuotes(f[1..]) + [Quote] + rest;
      ReadQuotedDoubled(f[1..], rest);
      if f[0] == Quote {
        DoubledQuote(f, rest);
        ReadDoubledQuote(tail, f[1..], rest);
      } else {
        OrdinaryChar(f, rest);
        ReadOrdinaryChar(f[0], tail, f[1..], rest);
      }
      assert [f[0]] + f[1..] == f;
    }
  }

  lemma DoubledQuote(f: string, rest: string)
    requires f != [] && f[0] == Quote
    ensures DoubleQuotes(f) + [Quote] + rest == [Quote, Quote] + (DoubleQuotes(f[1..]) + [Quote] + rest)
  {
  }

  lemma OrdinaryChar(f: string, rest: string)
    requires f != [] && f[0] != Quote
    ensures DoubleQuotes(f) + [Quote] + rest == [f[0]] + (DoubleQuotes(f[1..]) + [Quote] + rest)
  {
  }

  /** A doubled quote inside quotes is read as one quote. */
  lemma ReadDoubledQuote(tail: string, f: string, rest: string)
    requires ReadQuoted(tail) == Some((f, rest))
    ensures ReadQuoted([Quote, Quote] + tail) == Some(([Quote] + f, rest))
  {
    assert ([Quote, Quote] + tail)[2..] == tail;
  }

  /** Any other character inside quotes is read as itself. */
  lemma ReadOrdinaryChar(c: char, tail: string, f: string, rest: string)
    requires c != Quote
    requires ReadQuoted(tail) == Some((f, rest))
    ensures ReadQuoted([c] + tail) == Some(([c] + f, rest))
  {
    assert ([c] + tail)[1..] == tail;
  }

  lemma {:induction false} ReadBarePlain(f: string, rest: string)
    requires Comma !in f && Newline !in f
    requires rest == [] || rest[0] == Comma || rest[0] == Newline
    ensures ReadBare(f + rest) == (f, rest)
    decreases |f|
  {
    if f == [] {
      assert f + rest == rest;
    } else {
      assert (f + rest)[0] == f[0];
      assert (f + rest)[1..] == f[1..] + rest;
      ReadBarePlain(f[1..], rest);
      assert f == [f[0]] + f[1..];
    }
  }

  lemma ReadQuotedField(f: string, rest: string)
    requires rest == [] || rest[0] == Comma || rest[0] == Newline
    ensures ReadField([Quote] + DoubleQuotes(f) + [Quote] + rest) == Some((f, rest))
  {
    var inner := DoubleQuotes(f) + [Quote] + rest;
    ReadQuotedDoubled(f, rest);
    ReadOpeningQuote(inner);
    var d := DoubleQuotes(f);
    Assoc([Quote] + d, [Quote], rest);
    Assoc([Quote], d, [Quote] + rest);
    Assoc(d, [Quote], rest);
  }

  /** After an opening quote, the field is read as a quoted one. */
  lemma ReadOpeningQuote(inner: string)
    ensures ReadField([Quote] + inner) == ReadQuoted(inner)
  {
    assert ([Quote] + inner)[1..] == inner;
  }

  /** A field written without quotes holds no comma or line end and does not
      begin with a quote. */
  lemma PlainField(f: string)
    requires !NeedsQuotes(f)
    ensures Comma !in f && Newline !in f && (f == [] || f[0] != Quote)
  {
    assert forall i :: 0 <= i < |f| ==> !Special(f[i]);
  }

  /** A field as written is read back exactly, whatever follows its end. */
  lemma ReadEncodedField(f: string, rest: string)
    requires rest == [] || rest[0] == Comma || rest[0] == Newline
    ensures ReadField(EncodeField(f) + rest) == Some((f, rest))
  {
    if NeedsQuotes(f) {
      ReadQuotedField(f, rest);
    } else {
      PlainField(f);
      ReadBarePlain(f, rest);
    }
  }

  /** A row as written is read back exactly, as long as it has a field. */
  lemma {:induction false} ReadWrittenRow(row: seq<string>, rest: string)
    requires |row| > 0
    ensures ReadRow(EncodeFields(row) + [Newline] + rest) == Some((row, rest))
    decreases |row|
  {
    if |row| == 1 {
      ReadLastField(row[0], rest);
      assert row == [row[0]];
    } else {
      var tail := EncodeFields(row[1..]) + [Newline] + rest;
      RowSplit(row, rest);
      ReadWrittenRow(row[1..], rest);
      ReadFieldThenMore(row[0], tail, row[1..], rest);
      assert row == [row[0]] + row[1..];
    }
  }

  lemma RowSplit(row: seq<string>, rest: string)
    requires |row| > 1
    ensures EncodeFields(row) + [Newline] + rest
         == EncodeField(row[0]) + ([Comma] + (EncodeFields(row[1..]) + [Newline] + rest))
  {
    var e := EncodeField(row[0]);
    var m := EncodeFields(row[1..]);
    assert EncodeFields(row) == e + [Comma] + m;
    Assoc(e + [Comma] + m, [Newline], rest);
    Assoc(e + [Comma], m, [Newline] + rest);
    Assoc(e, [Comma], m + ([Newline] + rest));
    Assoc(m, [Newline], rest);
  }

  /** The last field of a row, then its line end. */
  lemma ReadLastField(f: string, rest: string)
    ensures ReadRow(EncodeField(f) + [Newline] + rest) == Some(([f], rest))
  {
    assert EncodeField(f) + [Newline] + rest == EncodeField(f) + ([Newline] + rest);
    ReadEncodedField(f, [Newline] + rest);
    assert ([Newline] + rest)[1..] == rest;
  }

  /** A field, a comma, then the rest of the row. */
  lemma ReadFieldThenMore(f: string, tail: string, fs: seq<string>, rest: string)
    requires ReadRow(tail) == Some((fs, rest))
    ensures ReadRow(EncodeField(f) + ([Comma] + tail)) == Some(([f] + fs, rest))
  {
    ReadEncodedField(f, [Comma] + tail);
    assert ([Comma] + tail)[1..] == tail;
  }

  /** `ReadAll` inverts `WriteAll` on every document whose rows each have a
      field (a row without fields is written as an empty line, like a row
      holding one empty field). */
  lemma {:induction false} ReadWriteAll(rows: seq<seq<string>>)
    requires forall i :: 0 <= i < |rows| ==> |rows[i]| > 0
    ensures ReadAll(WriteAll(rows)) == Some(rows)
    decreases |rows|
  {
    if rows != [] {
      var rest := WriteAll(rows[1..]);
      ReadWrittenRow(rows[0], rest);
      ReadWriteAll(rows[1..]);
      ReadRowThenMore(rows[0], rest, rows[1..]);
      assert rows == [rows[0]] + rows[1..];
    }
  }

  /** A row, then the rows after it. */
  lemma ReadRowThenMore(row: seq<string>, rest: string, rows: seq<seq<string>>)
    requires ReadRow(EncodeFields(row) + [Newline] + rest) == Some((row, rest))
    requires ReadAll(rest) == Some(rows)
    ensures ReadAll(WriteRecord(row) + rest) == Some([row] + rows)
  {
    assert WriteRecord(row) + rest == EncodeFields(row) + [Newline] + rest;
  }
}
