# ArcTool log extractor, in Dafny

A model of the `arc` package, which turns ArcTool log text into a report of
records and writes that report as CSV or JSON. Its core is a single-pass
extractor with two serialisers on top:

- **The extractor.** `ParseReport` keeps only the lines that start with `Sr.No`. On each one it deletes every `;` and scans the line with `Sr.No = %s WPRN = %s PremiseID = %s`. It collects one record per line, in input order. The first line that does not scan aborts the whole parse, and an input with no such line is an error too.
- **The serialisers.** `ProcessReportToCSV` writes a header row and one row per record through Go's CSV writer. `ProcessReportToJSON` writes `json.Marshal` of the report. Neither writes anything when the parse fails.
- **The legacy variant.** The older `internal/arc` package builds the CSV table directly (`processReport`) and writes it (`writeCSV`).

The model works on the input as a sequence of lines and on strings as sequences
of characters. It is organised as follows:

| module | file | what it holds |
|---|---|---|
| `Results` | results.dfy | `Result` and `Option` |
| `Text` | text.dfy | Go's white space, `strings.HasPrefix`, `strings.ReplaceAll(_, ";", "")` as `Delete`, and the split of a line into its fields and the white-space gaps around them |
| `LineScan` | line_scan.dfy | the `Sscanf` pattern as a test on a line's fields |
| `Collect` | collect.dfy | "parse every item, stop at the first failure", shared by both extractors |
| `ArcReport` | arc_report.dfy | `reportLine`, `Report`, `isLineWithData` and `ParseReport`, both as a function and as the loop the Go code runs |
| `Csv` | csv.dfy | the `encoding/csv` writer, and an RFC 4180 reader that inverts it |
| `Json` | json.dfy | `json.Marshal` of a report, and a decoder that inverts it |
| `ArcProcess` | arc_process.dfy | `ProcessReportToCSV` and `ProcessReportToJSON` |
| `LoaderLine` | log_line.dfy | record lines as the ArcTool loader writes them (`Sr.No = a; WPRN = b; PremiseID = c`), and the proof that they read back exactly |
| `LegacyArc` | legacy_arc.dfy | `processReport` and `writeCSV` of `internal/arc`, and their agreement with `ParseReport` |
| `ArcFixtures`, `LegacyFixtures` | fixtures.dfy | the logs of the packages' tests, with the outputs those tests expect |

**The scan.** Go's `fmt` scanner treats the `Sscanf` format as follows:

- A space in the format needs at least one white-space character in the input.
- A literal word must match the input exactly.
- `%s` skips white space and then takes a maximal non-empty run of non-space characters.

A candidate line starts with `Sr.No`, so the format comes down to a test on the line's white-space-separated fields:

- There are at least nine of them.
- Fields 0, 1, 3, 4, 6 and 7 read `Sr.No = WPRN = PremiseID =`.
- Fields 2, 5 and 8 are the captured values.
- Whatever follows the ninth field is never looked at.

White space is Go's: the same set for `fmt` and `unicode.IsSpace`. A line never holds a newline, so `fmt`'s special treatment of newlines does not come into play.

**What the code does.** Three consequences of the code are worth stating:

- **Read errors.** `scanner.Err()` is never consulted (arc.go:139-164), so a read error ends the input early instead of failing the parse.
- **Trailing fields.** `fmt.Sscanf` stops at the end of its format (arc.go:148), so a line with fields after the third value is accepted, and those fields are ignored.
- **Spacing.** The line needs white space between every two pattern words (arc.go:148). For example, `WPRN=1` and `2306982;WPRN` (no space after the semicolon) are rejected rather than tolerated.

## Model

| member | source | states |
|---|---|---|
| Text.Delete | arc.go:147 | deleting `;` leaves no `;` in the line |
| Text.DeleteCounts | arc.go:147 | every other character survives the deletion, as often as it occurred |
| Text.DeleteConcat | arc.go:147 | the deletion works character by character, so it keeps the order of what survives |
| Text.DeleteAbsent | arc.go:147 | a line without `;` is left unchanged |
| Text.FieldsAreTokens | arc.go:148 | every field `%s` can capture is non-empty and holds no white space |
| Text.FieldsAvoid | arc.go:147-148 | after the deletion no field holds a `;` |
| Text.FieldsOfJoin | arc.go:148 | words put between well-spaced white space are exactly the fields read back |
| Text.JoinOfFields | arc.go:148 | a line is its fields put back between its gaps, so splitting loses nothing but white space |
| Text.GapsWellSpaced | arc.go:148 | the gaps between a line's fields are white space, and every inner gap is non-empty |
| LineScan.Scan | arc.go:148 | the scan succeeds exactly when the fields match the pattern, and each capture is a non-empty, space-free token |
| LineScan.ScanAccepts | arc.go:148 | any line that starts with the pattern words, holds three tokens in their places and further fields, and has at least one white-space character between words is accepted with exactly those tokens |
| LineScan.ScanShape | arc.go:148 | every accepted line is such a line: its pattern words with the captures, then its other fields, joined by its own gaps |
| Collect.ParseAll | arc.go:139-159 | a successful parse of the items has one value per item |
| Collect.ParseAllValues | arc.go:139-158 | the parse succeeds exactly when every item parses, and then holds each item's value at its position |
| Collect.ParseAllError | arc.go:149-151 | a failed parse returns the error of the first item that fails, and all items before it parse |
| Collect.ParseAllConcat | arc.go:139-159 | parsing a concatenation is parsing its halves in turn, and the first error wins |
| Collect.ParseAllStops | arc.go:149-151 | nothing after a failure changes the result |
| Collect.ParseAllSnoc | arc.go:153-158 | one more item either appends its value or ends the parse with its error |
| ArcReport.ParseLine | arc.go:146-157 | a record line yields a record whose three values are tokens without `;`, or fails with an error naming the line with its semicolons deleted |
| ArcReport.ParseLineAccepts | arc.go:147-157 | a line that, once its `;` are gone, reads `Sr.No = A WPRN = B PremiseID = C` (no leading white space, any spacing between words, any trailing fields) yields exactly the record `{A, B, C}` |
| ArcReport.ParseLineShape | arc.go:147-157 | conversely, every accepted line has that shape, with the values of the record it yields |
| ArcReport.Candidates | arc.go:142-144 | the filter never adds lines |
| ArcReport.CandidatesMembers | arc.go:117-119 | a line is kept exactly when it is in the input and starts with `Sr.No` |
| ArcReport.CandidatesConcat | arc.go:139-144 | the filter decides line by line, so it distributes over concatenation |
| ArcReport.CandidatesOfCandidates | arc.go:142-144 | filtering the record lines again keeps them all |
| ArcReport.ParseReport | arc.go:134-165 | a successful report is never empty |
| ArcReport.ParseReportSpec | arc.go:134-165 | one record per record line, each the parse of its line; `NoData` exactly when there is no record line; otherwise the error of the first record line that fails, naming that line |
| ArcReport.ScanReport | arc.go:134-165 | the loop followed by the emptiness test computes `ParseReport` |
| ArcReport.ScanRecords | arc.go:139-159 | the loop that skips other lines and returns at the first rejected line computes the parse of the record lines |
| ArcReport.SkipStep | arc.go:142-144 | a line that is not a record line leaves the parse so far unchanged |
| ArcReport.KeepStep | arc.go:153-158 | a record line that scans appends its record |
| ArcReport.StopStep | arc.go:149-151 | a record line that does not scan decides the parse of the whole input |
| ArcReport.FailStep | arc.go:149-151 | that error is the result of `ParseReport`, however valid the earlier lines were |
| ArcReport.ParseReportConcat | arc.go:139-163 | two inputs that parse give the concatenation of their reports; the first malformed line in reading order decides a failure; an input without record lines adds nothing, on either side |
| ArcReport.ParseReportIgnoresNoise | arc.go:142-144 | parsing only the record lines gives the same result |
| ArcReport.NoiseInsertion | arc.go:142-144 | inserting a line that does not start with `Sr.No` anywhere changes nothing |
| LoaderLine.LoaderTextStripped | arc.go:147 | deleting the semicolons of `a b c; d e f; g h i` leaves the words separated by single spaces |
| LoaderLine.LoaderTextIsRecordLine | arc.go:117-119 | a loader line whose first word is `Sr.No` is a record line |
| LoaderLine.LoaderTextParses | arc.go:147-151 | a nine-word loader line yields its three values when its other words are the pattern words, and otherwise the error naming the stripped line |
| LoaderLine.LogLineParses | arc.go:147-157 | the loader line of any record with token values is a record line and yields exactly that record |
| ArcProcess.Rows | arc.go:194-196 | one row per record, in order, holding its three values |
| ArcProcess.Table | arc.go:193-196 | the table is the header row and then one three-field row per record |
| ArcProcess.ProcessReportToCsv | arc.go:187-198 | fails exactly when the parse fails, with its error, and otherwise writes a text that reads back as exactly the table |
| ArcProcess.ProcessReportToJson | arc.go:169-183 | fails exactly when the parse fails, with its error, and otherwise writes a text that decodes to exactly the parsed report |
| ArcProcess.TokenQuoting | arc.go:197 | a scanned value is quoted exactly when it is `\.` or holds a comma or a double quote |
| ArcProcess.PlainRow | arc.go:197 | a row of values that need no quoting is written as the values joined by commas, ended by `\n` |
| ArcProcess.HeaderLine | arc.go:193 | the header is written `Sr.No,WPRN,PremiseID` |
| ArcProcess.PlainRows | arc.go:194-197 | records that need no quoting are written one `serial,wprn,premise` line each, in order |
| ArcProcess.PlainCsv | arc.go:187-198 | for such records the whole output is the header line followed by those lines |
| Csv.DoubleQuotes | arc.go:197 | a value without a double quote is unchanged inside quotes |
| Csv.EncodeField | arc.go:197 | a field that needs no quotes is written as it is; any other is written between double quotes |
| Csv.WriteRecord | arc.go:197 | every row ends with `\n` |
| Csv.WriteAll | arc.go:197 | the text is empty exactly when there are no rows |
| Csv.WriteAllConcat | arc.go:197 | writing rows in two batches writes the same text as writing them all at once |
| Csv.ReadQuotedDoubled | arc.go:197 | a quoted field with its quotes doubled reads back as the original value |
| Csv.ReadEncodedField | arc.go:197 | every field as written reads back exactly, whatever separator follows |
| Csv.ReadWrittenRow | arc.go:197 | every row with at least one field reads back exactly |
| Csv.ReadWriteAll | internal/arc/arc.go:78-84 | every document whose rows each have a field reads back as exactly those rows, in order |
| Json.Hex | arc.go:174 | the hexadecimal digit written in a `\u00XX` escape has the value it stands for |
| Json.EscapeChar | arc.go:174 | a character is written as itself exactly when it is plain, and otherwise as an escape starting with a backslash |
| Json.EscapeIdentity | arc.go:174 | escaping leaves a string unchanged exactly when all its characters are plain |
| Json.MarshalReport | arc.go:174 | the document is a JSON array |
| Json.ReadEscapedChar | arc.go:174 | every escaped character reads back as itself |
| Json.ReadEscapedString | arc.go:174 | every string value reads back as the string it encodes |
| Json.ReadMarshalledRecord | arc.go:121-125 | an object with the keys `sr_no`, `wprn` and `premise_id` reads back as its record |
| Json.ReadMarshalledRecords | arc.go:174 | the objects of a non-empty report read back as that report |
| Json.DecodeMarshalled | arc.go:169-183 | decoding inverts the marshaller on every report |
| LegacyArc.ProcessReport | internal/arc/arc.go:46-76 | `Malformed` exactly when a record line does not scan, `NoRecords` exactly when there is no record line, and otherwise the header followed by one row per record line |
| LegacyArc.ScanLines | internal/arc/arc.go:50-67 | the loop starts from the header row and appends one row per record line, stopping at the first line that does not scan |
| LegacyArc.TableSnoc | internal/arc/arc.go:63-65 | appending a record appends its row |
| LegacyArc.Agreement | internal/arc/arc.go:46-76 | `processReport` succeeds exactly when `ParseReport` does, with the table of its records; `NoRecords` matches `NoData` and `Malformed` matches a malformed line |
| LegacyArc.WriteCsv | internal/arc/arc.go:78-84 | every row of the table is written, in order, and reads back unchanged |
| LegacyArc.SameCsv | internal/arc/arc.go:46-84 | `processReport` succeeds exactly when `ProcessReportToCSV` does, and then `writeCSV` of its table writes the same text |
| ArcFixtures.NoCandidates | arc_test.go:412-417 | banner and summary lines are never record lines |
| ArcFixtures.WordIsPlain | arc_test.go:393-405 | the test values are scannable, need no CSV quoting and need no JSON escaping |
| ArcFixtures.NoisyLog | arc_test.go:448-456 | loader lines between banner and summary lines parse to their records |
| ArcFixtures.BatchParses | arc_test.go:391-400 | one loader run with records parses to those records |
| ArcFixtures.TwoLinesParse | arc_test.go:125-135 | the two-record log parses to the expected two records |
| ArcFixtures.TwoLinesMarshalled | arc_test.go:446 | the two records marshal to the expected JSON text |
| ArcFixtures.TwoLinesJson | arc_test.go:92-106 | `ProcessReportToJSON` of the two-record log writes the expected JSON text |
| ArcFixtures.ValidParse | arc_test.go:391-410 | the log of two loader runs parses to its seven records, in order |
| ArcFixtures.SevenLines | arc_test.go:419-427 | the seven records are written as the expected seven CSV lines |
| ArcFixtures.ValidCsv | arc_test.go:108-123 | `ProcessReportToCSV` of that log writes the expected CSV text |
| ArcFixtures.MisspeltLine | arc_test.go:384 | the line with `WPRM` and `PremiseIDx` is a record line that the scan rejects |
| ArcFixtures.InvalidParse | arc_test.go:145-151 | the log with that line fails, naming it, although the line before it is valid |
| ArcFixtures.NoDataParse | arc_test.go:137-143 | a log without record lines fails with `NoData` |
| LegacyFixtures.LegacyContent | internal/arc/arc_test.go:43-78 | the seven-record log gives eight rows, the header first and then the first record's values |
| LegacyFixtures.LegacyNoRecords | internal/arc/arc_test.go:30-41 | two loader runs without records give `NoRecords` |

## Left out

- Reading: `bufio.Scanner` is not modelled (the splitting into lines, the dropped trailing `\r`, the 64 KiB line limit). The input is already a sequence of lines.
- Read errors: `scanner.Err()` is never checked in the source, so a read error only truncates the line sequence. The model has no read errors.
- Writing: failures of the output writer and partial writes are not modelled. The outputs are strings.
- Error texts: `ParseLine` keeps the stripped line that the error of arc.go:150 prints. It drops the scanner's own message and the wording. The two legacy errors are modelled as two constructors without data. The error of line 60 of internal/arc/arc.go names no line, and the `Sscanf` message it wraps is not modelled. The error of line 72 carries nothing.
- Scanner state: `srno`, `wprn` and `premiseid` are reused across lines in the source. That is not modelled, because a line that fails to scan ends the parse before the variables are read again.
- Plumbing: parser options, input files, the CLI entry points, usage and version output, and the HTTP handlers and server are all I/O and flag handling.
- Packages: `internal/arct` does not compile, and its loader relies on a global mutex and file I/O.
- File I/O: the legacy `GenerateReport` and `loadReportLog` open and create files around `processReport` and `writeCSV`.
- Json.MarshalReport: an empty report is written `[]`, whereas Go writes a nil slice as `null`. `ProcessReportToJSON` never marshals an empty report, because an empty parse is an error.
- Input lines: every line is a sequence of Unicode scalar values without a newline. `bufio.Scanner` never yields a `\n` inside a line. The model would count a `\n` as white space between pattern words, where `fmt.Sscanf` rejects a newline matched against a space of the format. Invalid UTF-8 is not modelled: `Sscanf` would turn each invalid byte of a captured value into U+FFFD, and the JSON writer would do the same for what remains.
- Json.EscapeChar: the `\b` and `\f` short escapes are those of Go 1.22 and later. Earlier versions write `\u0008` and `\u000c`.
- Json.DecodeReport: the decoder reads only the shape the marshaller writes (no white space, keys in order, no surrogate-pair escapes). It is an independent inverse, not a general JSON parser.
- Csv.ReadWriteAll: stated for rows with at least one field. Go writes a row without fields as an empty line, which reads back as one empty field. Every table the packages write has three fields per row.
- Library internals: the CSV and JSON libraries are modelled by the behaviour listed above, not by their code.
