# ETL stages: access-log parser, CSV escaper, chunked bulk loader

This project is a Dafny model of three stages of a Ruby ETL library, with proofs about them.

- **`ApacheCombinedLogParser`** turns a line of an Apache combined access log into a hash of fields. It runs these steps:
  1. A pre-pass turns every `\"` into `'`.
  2. A line-anchored regular expression with nine groups is matched.
  3. The captures are assigned to the field names by position.
  4. `bytes` goes through `String#to_i`.
  5. The timestamp goes through `Date._strptime` with `%d/%b/%Y:%H:%M:%S`, and the fields read go through `Time.mktime`.
  6. The request is split at whitespace into `method` and `path`.
  7. Every `-` becomes nil.

  `each` yields one parsed record per line of every file, in order, until a line raises.
- **`EscapeCsvProcessor`** reads a source file in chunks of at most `buffer` bytes (characters in the model). It folds an ordered list of replace-all filters over each chunk and writes the results to a target file. With the `:file` shortcut it writes to `file.tmp` and then moves that over the source. The default filter doubles every double quote.
- **`BulkImportProcessor`** loads a delimited file into a table through a database connection. If `commit_every` is positive and below the `wc -l` count, the file is first cut with `split -l commit_every`. Each piece is loaded in its own transaction. The table is truncated, when asked, in the first transaction only.

## How the model is organised

The model takes each source file's own form.

**Parser.** The parser is pure, so it is modelled as functions:
- `ApacheLog.Parse` is the whole `parse`;
- `LogPattern` is the regular expression: a generic pattern language, a greedy matcher proved sound and complete against a relational meaning of the pattern, and line anchoring;
- `LogTime` is an interpreter for the `_strptime` directives the parser uses;
- `RubyText` covers `to_i` and `split(/\s/)`.

The parser's statements are also mirrored by methods (`NilFields`, `AssignCaptures`, `Convert`, `Normalise`, `ParseLine`, `ParseFile`, `Each`). Each of these is proved equal to its specification function.

**Escaper.** The escaper is imperative. It is a method over a `Files.FileStore` object (a map from paths to contents) whose operations mirror `File.open`, `write`, `FileUtils.rm` and `FileUtils.mv`. The chunks `readpartial` returns are a parameter, constrained to concatenate to the source content with each chunk between 1 and `buffer` characters long. `readpartial` counts bytes; the model counts characters, so the two agree for single-byte text only.

**Loader.** The loader is a class whose `truncate` field is updated in place, as in the source. The connection is a `Sink` object that records every call in a trace. Failures are injected as a set of calls that raise.

**Behaviour of the code worth knowing:**
- `method` and `path` are the first two words of the request, not a split into exactly two parts. A request such as `GET / HTTP/1.0` loses its protocol, so the two do not rejoin into the request (`ApacheLog.ParseRequest`).
- The default escaping rule is not idempotent: it doubles every quote again. `EscapeCsv.EscapeIdempotentIff` proves it idempotent exactly on text without a double quote.
- `@truncate = false` runs only after a transaction that did not raise. An exception in the first chunk leaves the flag set (`BulkImport.BulkImportProcessor.LoadChunks`).
- Filters apply chunk by chunk. A multi-character pattern that straddles a chunk boundary is not replaced (`EscapeCsv.ChunkBoundaryMiss`). With one-character patterns, such as the default, the chunking is invisible (`EscapeCsv.ChunkingInvisible`).

## Model

Source paths are relative to the repository root.

| member | source | states |
|---|---|---|
| ApacheLog.Position | lib/etl/parser/apache_combined_log_parser.rb:22-31 | a field has one of the nine group positions exactly when it is among the nine field names |
| ApacheLog.FieldNamesPositions | lib/etl/parser/apache_combined_log_parser.rb:22 | the nine field names are distinct; each sits at its own position, so capture i goes to field name i |
| ApacheLog.PrepassHead | lib/etl/parser/apache_combined_log_parser.rb:26 | a line that starts with `"` after the `\"` pre-pass started with `"` before it |
| ApacheLog.PrepassNoEscapedQuote | lib/etl/parser/apache_combined_log_parser.rb:26 | after the pre-pass no backslash is followed by a double quote |
| ApacheLog.PrepassUnchanged | lib/etl/parser/apache_combined_log_parser.rb:26 | a line without `\"` passes the pre-pass unchanged |
| ApacheLog.PrepassIdempotent | lib/etl/parser/apache_combined_log_parser.rb:26 | applying the pre-pass twice is the same as applying it once |
| ApacheLog.ParseKeys | lib/etl/parser/apache_combined_log_parser.rb:20-47 | every one of the nine field names is always a key; `method` and `path` are added exactly when the line matches; a line that does not match returns the all-nil hash without raising |
| ApacheLog.ParseNilIffNoMatch | lib/etl/parser/apache_combined_log_parser.rb:24-46 | the result is the all-nil hash if and only if the pre-passed line does not match |
| ApacheLog.ParseAllNil | lib/etl/parser/apache_combined_log_parser.rb:26-29 | the result is all nil if and only if no line of the pre-passed text matches the combined format anywhere |
| ApacheLog.ParseMatched | lib/etl/parser/apache_combined_log_parser.rb:29-45 | on a match there are nine captures, and the fields are the ones derived from them |
| ApacheLog.ParseCaptures | lib/etl/parser/apache_combined_log_parser.rb:29 | on a match each capture has the form its group allows (non-space, digits, no `]`, no `"`, non-empty where `+`) |
| ApacheLog.ParsePositions | lib/etl/parser/apache_combined_log_parser.rb:31-44 | each field other than `bytes` and `timestamp` holds its capture, or nil where the capture is `-` |
| ApacheLog.ParseBytes | lib/etl/parser/apache_combined_log_parser.rb:33 | `bytes` is always the integer `to_i` of its capture and never nil: 0 for `-` or empty, the decimal value for digits |
| ApacheLog.ParseResponseCode | lib/etl/parser/apache_combined_log_parser.rb:29-31 | the status code stays a string of digits and is never nil |
| ApacheLog.DigitText | lib/etl/parser/apache_combined_log_parser.rb:29 | a capture of `\d*` is all digits, so it is never `-` |
| ApacheLog.ParseTimestamp | lib/etl/parser/apache_combined_log_parser.rb:36-37 | for a line of valid text, `parse` raises ArgumentError exactly when `_strptime` reads the capture with an hour of 24 and a non-zero minute or second, which `Time.mktime` rejects; a reading `Time.mktime` takes becomes the time; a capture `_strptime` cannot read stays the text, nil if `-` |
| ApacheLog.ParseTimesInRange | lib/etl/parser/apache_combined_log_parser.rb:36-37 | where `parse` as written returns, it returns the corrected parse; the corrected parse holds only times `Time.mktime` takes, and keeps the text of a rejected timestamp |
| ApacheLog.RenderedStampRaises | lib/etl/parser/apache_combined_log_parser.rb:36-37 | a line written in the combined format whose timestamp `Time.mktime` rejects makes `parse` raise |
| ApacheLog.HourTwentyFour | lib/etl/parser/apache_combined_log_parser.rb:36-37 | `10/Oct/2000:24:30:00`, followed by any zone, is read by `_strptime` with hour 24 and minute 30, a reading `Time.mktime` rejects |
| ApacheLog.HourTwentyFourText | lib/etl/parser/apache_combined_log_parser.rb:36 | that reading is the one written as `10/Oct/2000:24:30:00` |
| ApacheLog.ParseRequest | lib/etl/parser/apache_combined_log_parser.rb:39 | `method` and `path` are the first two words of the request split at whitespace, nil where missing or `-`; an empty request gives nil for both |
| ApacheLog.ParseNormalised | lib/etl/parser/apache_combined_log_parser.rb:44 | after parsing no field holds `-` |
| ApacheLog.ConvertedPlain | lib/etl/parser/apache_combined_log_parser.rb:31-39 | the seven fields without a conversion keep their capture |
| ApacheLog.ParseRendered | lib/etl/parser/apache_combined_log_parser.rb:28-29 | a line written in the combined format, with no backslash and ended by nothing or a newline, matches with the written values as captures and parses to the fields derived from them |
| ApacheLog.ConvertedRead | lib/etl/parser/apache_combined_log_parser.rb:33-39 | when `to_i` reads the bytes as `n`, `_strptime` reads a timestamp `Time.mktime` takes as `t`, and the request splits into at least two words, the conversions store `n`, the time `t` and the first two words as method and path over the assigned captures |
| ApacheLog.NormalisedOneDash | lib/etl/parser/apache_combined_log_parser.rb:43 | on a record with exactly one `-` value, the `-` rule makes that field nil and changes nothing else |
| ApacheLog.LogLineFields | lib/etl/parser/apache_combined_log_parser.rb:29 | a line the combined format writes is its nine captures separated by single spaces, the timestamp in brackets and the request, referrer and user agent in double quotes |
| ApacheLog.ExampleText | lib/etl/parser/apache_combined_log_parser.rb:28-29 | the example line in the parser's comment is the combined format written with that example's nine values, each in the form its group allows |
| ApacheLog.ExampleStamp | lib/etl/parser/apache_combined_log_parser.rb:36-37 | `_strptime` reads the example's `10/Oct/2000:13:55:36 -0700` as 13:55:36 on 10 October 2000, ignoring the zone, and `Time.mktime` takes that reading |
| ApacheLog.ExampleWords | lib/etl/parser/apache_combined_log_parser.rb:39 | `split(/\s/)` cuts the example request into `GET`, `/apache_pb.gif` and `HTTP/1.0` |
| ApacheLog.ExampleBytes | lib/etl/parser/apache_combined_log_parser.rb:33 | `to_i` reads the example's byte count `2326` as the number 2326 |
| ApacheLog.ExampleDerive | lib/etl/parser/apache_combined_log_parser.rb:31-43 | the example's captures, assigned, converted and passed through the `-` rule, give the documented fields: a nil identd, the time, the number of bytes, the method and the path |
| ApacheLog.ExampleLine | lib/etl/parser/apache_combined_log_parser.rb:28-47 | `parse` on the example line, with or without the newline `each` leaves on it, does not raise and returns exactly the documented fields |
| ApacheLog.NilFields | lib/etl/parser/apache_combined_log_parser.rb:24 | the `inject` loop builds the hash of the nine field names, all nil |
| ApacheLog.AssignCaptures | lib/etl/parser/apache_combined_log_parser.rb:31 | the `each_with_index` loop assigns capture i+1 to field name i |
| ApacheLog.Convert | lib/etl/parser/apache_combined_log_parser.rb:33-39 | for a line of valid text, the three conversions give the converted record, or the ArgumentError of `Time.mktime` exactly when it rejects the timestamp's reading |
| ApacheLog.Normalise | lib/etl/parser/apache_combined_log_parser.rb:44 | the `each` loop over the keys, in insertion order, replaces exactly the `-` values by nil |
| ApacheLog.ParseLine | lib/etl/parser/apache_combined_log_parser.rb:20-47 | for a line of valid text, `parse`, statement by statement, returns exactly the specified record, or raises exactly where `Time.mktime` does |
| Sequences.FirstTrue | lib/etl/parser/apache_combined_log_parser.rb:14-16 | the first `true` flag: none before it is set and, unless it is the end, it is set; over the lines' raise flags this is where the file loop stops |
| ApacheLog.FileYieldPrefix | lib/etl/parser/apache_combined_log_parser.rb:14-16 | one file yields a prefix of its lines' records; it ends without an error exactly when no line raises, then with all of them, and otherwise the next line is the one that raised |
| ApacheLog.FileYieldStep | lib/etl/parser/apache_combined_log_parser.rb:14-16 | a line before the first raising one adds its record; the first raising one ends the file with the records before it |
| ApacheLog.FileYieldAll | lib/etl/parser/apache_combined_log_parser.rb:14-16 | a file with no raising line yields every record |
| ApacheLog.ParseFile | lib/etl/parser/apache_combined_log_parser.rb:14-16 | the `each_line` loop yields the records of the file's lines, in order, and stops with the error at the first line that raises |
| ApacheLog.EachYieldPrefix | lib/etl/parser/apache_combined_log_parser.rb:12-18 | `each` yields a prefix of the records of every line; it ends without an error exactly when no line of any file raises, and then it has yielded every record |
| ApacheLog.NoneRaiseSplit | lib/etl/parser/apache_combined_log_parser.rb:12-18 | no line of the files raises exactly when none of the earlier files' lines and none of the last file's lines do |
| ApacheLog.EachStops | lib/etl/parser/apache_combined_log_parser.rb:12-18 | once a file has raised, the files after it are never read |
| ApacheLog.Each | lib/etl/parser/apache_combined_log_parser.rb:12-18 | for files of valid text, `each` yields the records of every line of every file, file after file, and stops at the first line that raises |
| ApacheLog.RecordsCount | lib/etl/parser/apache_combined_log_parser.rb:12-18 | when no line raises, `each` yields as many records as there are newlines, plus one per file with an unterminated last line |
| LogPattern.Span | lib/etl/parser/apache_combined_log_parser.rb:29 | a greedy group run stops at the first character outside its class |
| LogPattern.Scan | lib/etl/parser/apache_combined_log_parser.rb:29 | a successful scan ends within the text and captures one text per group |
| LogPattern.ScanSound | lib/etl/parser/apache_combined_log_parser.rb:29 | what the greedy matcher finds is a match of the pattern |
| LogPattern.ScanComplete | lib/etl/parser/apache_combined_log_parser.rb:29 | for a pattern whose groups are each followed by a stopping element, every match is the one the matcher finds, so it needs no backtracking |
| LogPattern.FoundAt | lib/etl/parser/apache_combined_log_parser.rb:29 | a scan between a line start and a line end is an anchored match |
| LogPattern.NotFoundAt | lib/etl/parser/apache_combined_log_parser.rb:29 | where the scan fails or misses an anchor, no anchored match starts there |
| LogPattern.MatchFromSound | lib/etl/parser/apache_combined_log_parser.rb:29 | the captures returned belong to an anchored match, and no match starts earlier |
| LogPattern.MatchFromComplete | lib/etl/parser/apache_combined_log_parser.rb:29 | the leftmost anchored match is always the one returned |
| LogPattern.MatchFromNone | lib/etl/parser/apache_combined_log_parser.rb:29 | no result if and only if no anchored match exists |
| LogPattern.MatchFromFits | lib/etl/parser/apache_combined_log_parser.rb:29 | returned captures fit the pattern's groups |
| LogPattern.ScanFits | lib/etl/parser/apache_combined_log_parser.rb:29 | the matcher's captures fit the pattern's groups |
| LogPattern.RenderMatches | lib/etl/parser/apache_combined_log_parser.rb:29 | the text a pattern writes for fitting captures matches the pattern with exactly those captures |
| LogPattern.CombinedShape | lib/etl/parser/apache_combined_log_parser.rb:29 | the combined format has nine groups, each followed by an element that stops it |
| LogPattern.BareFits | lib/etl/parser/apache_combined_log_parser.rb:29 | `(\S+)\s`, `(\S*)\s` and `(\d*)\s` accept exactly one capture of their class, non-empty for `+` |
| LogPattern.BetweenFits | lib/etl/parser/apache_combined_log_parser.rb:29 | `[...]` and `"..."` accept exactly one capture without the closing delimiter |
| LogPattern.SpaceFits | lib/etl/parser/apache_combined_log_parser.rb:29 | `\s` captures nothing |
| LogPattern.CombinedSplit | lib/etl/parser/apache_combined_log_parser.rb:29 | captures fit the combined format exactly when the first five fit its head and the last four fit the rest |
| LogPattern.HeadFields | lib/etl/parser/apache_combined_log_parser.rb:29 | the first five captures fit the head exactly when host, identd and user are non-empty non-space text, the timestamp has no `]` and the request no `"` |
| LogPattern.TailFields | lib/etl/parser/apache_combined_log_parser.rb:29 | the last four captures fit exactly when status is digits, size is non-space and referrer and agent have no `"` |
| LogPattern.CombinedFits | lib/etl/parser/apache_combined_log_parser.rb:29 | captures fit the combined format if and only if each field has its allowed form |
| LogPattern.MatchLineFits | lib/etl/parser/apache_combined_log_parser.rb:29 | a match of the combined format has nine captures, each in its allowed form |
| LogPattern.MatchRendered | lib/etl/parser/apache_combined_log_parser.rb:29 | a line written in the combined format, followed by nothing or a newline, matches with the written captures |
| LogPattern.RenderConcat | lib/etl/parser/apache_combined_log_parser.rb:29 | writing two patterns one after the other writes each with its own share of the captures, in order |
| LogPattern.RenderCombined | lib/etl/parser/apache_combined_log_parser.rb:29 | the combined format has nine groups and writes its captures with the separators, brackets and quotes of the regular expression |
| LogTime.ReadDigits | lib/etl/parser/apache_combined_log_parser.rb:36 | a numeric directive reads at least one and at most `width` digits |
| LogTime.ReadPadded | lib/etl/parser/apache_combined_log_parser.rb:36 | `%d` and `%H` read a value within the field's range |
| LogTime.ReadTwo | lib/etl/parser/apache_combined_log_parser.rb:36 | `%M` and `%S` read a value between 0 and the field's maximum |
| LogTime.ReadYear | lib/etl/parser/apache_combined_log_parser.rb:36 | `%Y` consumes at least one character |
| LogTime.ReadMonth | lib/etl/parser/apache_combined_log_parser.rb:36 | `%b` reads a month between 1 and 12 |
| LogTime.ReadDirective | lib/etl/parser/apache_combined_log_parser.rb:36 | every directive that reads moves forward within the text |
| LogTime.ReadMonthName | lib/etl/parser/apache_combined_log_parser.rb:36 | a month abbreviation followed by `/` reads as its month number |
| LogTime.ReadShowInt | lib/etl/parser/apache_combined_log_parser.rb:36 | `%Y` reads back any written integer year, negative ones included |
| LogTime.ReadShowNegative | lib/etl/parser/apache_combined_log_parser.rb:36 | `%Y` reads back a written negative year |
| LogTime.ReadYearUnsigned | lib/etl/parser/apache_combined_log_parser.rb:36 | `%Y` reads a maximal run of digits whole |
| LogTime.ReadYearNegative | lib/etl/parser/apache_combined_log_parser.rb:36 | a minus sign before the digits negates the year |
| LogTime.StrpTimeFields | lib/etl/parser/apache_combined_log_parser.rb:36 | the parse succeeds with exactly the fields read when every field reads and every separator is in place |
| LogTime.StrpTimeFormat | lib/etl/parser/apache_combined_log_parser.rb:36-37 | reading back a valid timestamp written as `%d/%b/%Y:%H:%M:%S` gives the same fields, whatever follows it (such as the zone) |
| RubyText.ToIDigits | lib/etl/parser/apache_combined_log_parser.rb:33 | `to_i` of a run of digits is its decimal value |
| RubyText.ToIShowInt | lib/etl/parser/apache_combined_log_parser.rb:33 | `to_i` reads back every written integer |
| RubyText.ToIEmptyOrDash | lib/etl/parser/apache_combined_log_parser.rb:33 | `to_i` of an empty text or of `-` is 0 |
| RubyText.SplitWs | lib/etl/parser/apache_combined_log_parser.rb:39 | the words of `split(/\s/)` contain no whitespace |
| RubyText.PiecesJoinSpace | lib/etl/parser/apache_combined_log_parser.rb:39 | cutting at single whitespace characters undoes joining words with single spaces |
| RubyText.SplitWsJoinSpace | lib/etl/parser/apache_combined_log_parser.rb:39 | `split(/\s/)` gives back words joined by single spaces when the last word is non-empty |
| RubyText.SplitWsEmpty | lib/etl/parser/apache_combined_log_parser.rb:39 | splitting an empty request gives no words |
| Rewrite.ReplaceAllAbsent | lib/etl/parser/apache_combined_log_parser.rb:26 | `gsub` of a non-empty pattern that never occurs leaves the text unchanged |
| Rewrite.ReplaceCharConcat | lib/etl/processor/escape_csv_processor.rb:50 | `gsub` of a one-character pattern distributes over concatenation |
| Rewrite.ReplaceCharLength | lib/etl/processor/escape_csv_processor.rb:50 | `gsub` of a one-character pattern grows the text by the replacement's length minus one per occurrence |
| LineSplit.LinesJoin | lib/etl/parser/apache_combined_log_parser.rb:14 | the lines `each_line` yields, joined in order, give back the content |
| LineSplit.LinesShape | lib/etl/parser/apache_combined_log_parser.rb:14 | each line is non-empty with a newline only at its end, and every line but the last ends with one |
| LineSplit.LinesCount | lib/etl/processor/bulk_import_processor.rb:103-104 | the number of lines is the `wc -l` newline count, plus one exactly when the last line is unterminated |
| LineSplit.GroupsJoin | lib/etl/processor/bulk_import_processor.rb:113-115 | the groups of `split -l`, joined in order, give back the lines |
| LineSplit.GroupsSizes | lib/etl/processor/bulk_import_processor.rb:113-115 | every group has exactly n lines except the last, which has between 1 and n |
| LineSplit.PiecesJoin | lib/etl/processor/bulk_import_processor.rb:113-115 | the piece files, concatenated in order, are the original content |
| Files.FileStore.constructor | lib/etl/processor/escape_csv_processor.rb:44 | the store starts with the given files |
| Files.FileStore.OpenForWrite | lib/etl/processor/escape_csv_processor.rb:45 | opening for writing creates or empties the file and changes nothing else |
| Files.FileStore.Append | lib/etl/processor/escape_csv_processor.rb:53 | a write appends to the file and changes nothing else |
| Files.FileStore.Remove | lib/etl/processor/escape_csv_processor.rb:60 | `rm` deletes exactly that file |
| Files.FileStore.Move | lib/etl/processor/escape_csv_processor.rb:61 | `mv` moves the content to the target path and removes the source path |
| EscapeCsv.Configure | lib/etl/processor/escape_csv_processor.rb:24-40 | the constructor succeeds exactly when `:file` is given or both paths are given and differ. `:file` sets the source to it and the target to it plus `.tmp`. Filters default to the quote-doubling rule and the buffer to 8192. A missing path is a TypeError and equal paths a ControlError |
| EscapeCsv.ApplyFiltersAppend | lib/etl/processor/escape_csv_processor.rb:49-52 | the fold is sequential: filter i's output is filter i+1's input |
| EscapeCsv.ApplyFiltersConcat | lib/etl/processor/escape_csv_processor.rb:49-52 | one-character filters distribute over concatenation |
| EscapeCsv.ApplyFiltersEmpty | lib/etl/processor/escape_csv_processor.rb:49-52 | one-character filters leave an empty chunk empty |
| EscapeCsv.RewrittenAppend | lib/etl/processor/escape_csv_processor.rb:47-54 | reading more chunks appends their filtered text to what was written, preserving order |
| EscapeCsv.ChunkingInvisible | lib/etl/processor/escape_csv_processor.rb:47-54 | with one-character filters, filtering chunk by chunk equals filtering the whole content |
| EscapeCsv.DefaultFiltersEscape | lib/etl/processor/escape_csv_processor.rb:35 | the default filter list doubles every double quote |
| EscapeCsv.DefaultChunkingInvisible | lib/etl/processor/escape_csv_processor.rb:35-54 | under the default filter the output does not depend on how `readpartial` cuts the input |
| EscapeCsv.ChunkBoundaryMiss | lib/etl/processor/escape_csv_processor.rb:47-54 | a two-character pattern split across two chunks is not replaced, though it is in the whole text |
| EscapeCsv.EscapeLength | lib/etl/processor/escape_csv_processor.rb:35 | escaping adds one character per double quote |
| EscapeCsv.EscapeQuoteCount | lib/etl/processor/escape_csv_processor.rb:35 | escaping doubles the number of double quotes |
| EscapeCsv.EscapeNoQuote | lib/etl/processor/escape_csv_processor.rb:35 | text without a double quote passes unchanged |
| EscapeCsv.EscapeIdempotentIff | lib/etl/processor/escape_csv_processor.rb:35 | escaping twice equals escaping once if and only if the text has no double quote |
| EscapeCsv.EscapeRoundTrip | lib/etl/processor/escape_csv_processor.rb:35 | collapsing doubled quotes gives back the original text, so escaping loses nothing |
| EscapeCsv.FoldFilters | lib/etl/processor/escape_csv_processor.rb:49-52 | the filter loop computes the fold of the filters over the chunk, first to last |
| EscapeCsv.Process | lib/etl/processor/escape_csv_processor.rb:43-63 | a missing source raises before anything changes. With a buffer of 0 or less and a non-empty source, the target is created or emptied and then a negative buffer raises ArgumentError and a buffer of 0 never ends. Otherwise the files become the specified result: the target holds the filtered chunks, and with `:file` the temporary file is moved over the source |
| EscapeCsv.NoReadingsWithoutBuffer | lib/etl/processor/escape_csv_processor.rb:36-48 | with a buffer of 0 or less, no finite run of reads gets through a non-empty source |
| EscapeCsv.CheckedConfigure | lib/etl/processor/escape_csv_processor.rb:36-39 | the constructor with a positive-buffer check: it accepts exactly what the constructor accepts with a positive buffer, with the same processor, and keeps the constructor's errors |
| EscapeCsv.ChunksRead | lib/etl/processor/escape_csv_processor.rb:47-48 | with a positive buffer, those chunks are a run of reads that gets through the source, so the loop ends |
| EscapeCsv.CheckedProcessorReads | lib/etl/processor/escape_csv_processor.rb:36-48 | every processor the checked constructor accepts gets through any source |
| EscapeCsv.SeparateTargetMode | lib/etl/processor/escape_csv_processor.rb:43-58 | without `:file` the target holds the filtered chunks and every other file, the source included, is unchanged |
| EscapeCsv.SameFileMode | lib/etl/processor/escape_csv_processor.rb:24-63 | with `:file` the file ends up holding its filtered content, no `.tmp` file remains and nothing else changes; under the default filter that content is the whole file escaped at once |
| BulkImport.Configure | lib/etl/processor/bulk_import_processor.rb:46-65 | construction succeeds exactly when file, target and table are given. A missing file is a TypeError; a missing target or table is a ControlError with its message. The separators default to `,` and newline, the null string to empty, the flags to false and `commit_every` to 0 |
| BulkImport.BuildOptions | lib/etl/processor/bulk_import_processor.rb:72-84 | the options hash has `columns` and `fields`, plus `disable_keys`/`replace` exactly when set; `fields` holds null string, delimiter and terminator, and the enclosure only when given |
| BulkImport.LoadFileListWhole | lib/etl/processor/bulk_import_processor.rb:102-107 | the list is just the file if and only if `commit_every` is not positive or the newline count does not exceed it |
| BulkImport.LoadFileListSplit | lib/etl/processor/bulk_import_processor.rb:109-120 | otherwise there are at least two pieces in split order, each of `commit_every` lines except the last (1 to `commit_every`), which together give back the content |
| BulkImport.Sink.constructor | lib/etl/processor/bulk_import_processor.rb:86 | a fresh connection has an empty trace |
| BulkImport.Sink.Begin | lib/etl/processor/bulk_import_processor.rb:91 | opening a transaction is recorded |
| BulkImport.Sink.Truncate | lib/etl/processor/bulk_import_processor.rb:92 | a truncate is recorded and succeeds unless it is one that raises |
| BulkImport.Sink.BulkLoad | lib/etl/processor/bulk_import_processor.rb:93 | a bulk load is recorded with its file, table and options, and succeeds unless it is one that raises |
| BulkImport.Sink.Commit | lib/etl/processor/bulk_import_processor.rb:91-94 | a commit is recorded |
| BulkImport.Sink.Rollback | lib/etl/processor/bulk_import_processor.rb:91-94 | a rollback is recorded |
| BulkImport.TxShape | lib/etl/processor/bulk_import_processor.rb:91-94 | a transaction opens with begin, truncates only when asked and then as its second call, loads only its own file with the run's table and options, and ends with commit when it committed and rollback otherwise |
| BulkImport.TxTally | lib/etl/processor/bulk_import_processor.rb:91-94 | one transaction contributes one begin, one commit or one rollback, and its load exactly when it committed |
| BulkImport.TxRolledBack | lib/etl/processor/bulk_import_processor.rb:91-94 | a transaction that did not commit leaves one begin, at most its own load and one rollback |
| BulkImport.RunLoadsStep | lib/etl/processor/bulk_import_processor.rb:88-98 | after a prefix that did not fail, the next chunk adds its own transaction, truncating only when it is the first |
| BulkImport.RunLoadsStops | lib/etl/processor/bulk_import_processor.rb:88-98 | once a chunk raises, the rest of the list is never loaded |
| BulkImport.TruncateOnce | lib/etl/processor/bulk_import_processor.rb:92-97 | a run truncates at most once, only in the first transaction and only when asked; an empty list never truncates |
| BulkImport.RunLoadsSucceeded | lib/etl/processor/bulk_import_processor.rb:88-98 | on success every chunk was begun, loaded in list order and committed, with no rollback |
| BulkImport.RunLoadsFailed | lib/etl/processor/bulk_import_processor.rb:88-98 | on failure only the chunks up to the failing one were begun; those before it were committed and loaded in order, and the trace ends with the failing one's single rollback |
| BulkImport.FailsOnLast | lib/etl/processor/bulk_import_processor.rb:88-98 | a run whose last chunk raises commits all earlier chunks and rolls back the last |
| BulkImport.SameOptions | lib/etl/processor/bulk_import_processor.rb:72-93 | every load goes to the same table with the same options, and loads only files of the list |
| BulkImport.InTransaction | lib/etl/processor/bulk_import_processor.rb:91-94 | the `transaction` block appends exactly the calls of one transaction and reports whether it committed |
| BulkImport.BulkImportProcessor.constructor | lib/etl/processor/bulk_import_processor.rb:46-65 | the attributes are the accepted configuration's settings |
| BulkImport.BulkImportProcessor.Process | lib/etl/processor/bulk_import_processor.rb:68-100 | skipping and an empty file change nothing, and a missing file raises. Otherwise the trace gains the run of the file list, the result reports failure, and `truncate` is cleared exactly when a chunk committed |
| BulkImport.BulkImportProcessor.LoadChunks | lib/etl/processor/bulk_import_processor.rb:88-98 | the loop makes exactly the run's calls, stops at the first error and clears `truncate` after the first committed chunk |

## Left out

- I/O is modelled on values. File contents are a map from paths to texts. `each` receives the contents of the files `Dir.glob` found, in glob order. `File.size(file) == 0` is modelled as the content being empty.
- Paths are taken as already resolved. `Pathname#absolute?` and `File.expand_path` are not modelled, so the same-file check compares the given paths.
- The chunks `readpartial` returns are a parameter. Only their sizes (1 to `buffer`) and their concatenation are constrained, not where the runtime cuts.
- Filters are literal replace-all. `Regexp.new(filter[:replace])` is modelled for patterns without regular-expression metacharacters other than an escaped literal, as the default `\"` is.
- `Time.mktime` is modelled only by its range check: it raises ArgumentError for hour 24 with a non-zero minute or second. Its normalisation (hour 24 rolling over to the next day, a day beyond the month's end) and the local time zone are not modelled. A time is kept as the fields `_strptime` read (year, month, day, hour, minute, second). The zone after the seconds is ignored, as `_strptime` leaves it over.
- EscapeCsv.Process: a buffer of 0 is reported as the outcome `Hangs`, standing for the `eof?` loop that never ends. What such a loop would keep writing is not modelled; it is non-empty only for a filter whose pattern matches the empty text.
- `readpartial` counts bytes, the model counts characters. Multi-byte characters and a read that cuts one are not modelled.
- The constructors write back into the configuration hash they are given: `configuration[:source_file]` and `configuration[:target_file]` at lib/etl/processor/escape_csv_processor.rb:28-29, and `configuration[:truncate] ||= false` at lib/etl/processor/bulk_import_processor.rb:53. These writes are not modelled. The configuration is a value, and only the processor's own settings are derived from it.
- Parser lines are taken to be valid text in the file's external encoding. For a line holding a byte sequence that is invalid in that encoding, the pre-pass and `line.match` (lib/etl/parser/apache_combined_log_parser.rb:26-29) raise ArgumentError ("invalid byte sequence"). `parse` then raises and `each` stops at that line. A `string` of characters cannot hold such a line, so this error is not modelled. The only raise modelled is the one from `Time.mktime`.
- The Ruby modelled is 2.2 or later. There `\s` matches the vertical tab (`RubyText.IsSpace`). `Time.mktime`'s hour-24 check and the grammar of `Date._strptime` are those of Ruby 1.9.3 and later. Under Ruby 1.8, `Time.mktime` rejects every hour of 24, so more timestamps raise there than `ApacheLog.StampRejected` admits.
- LogTime.StrpTime: only the directives of `%d/%b/%Y:%H:%M:%S` are interpreted, not the general `_strptime` grammar.
- Hash insertion order is not modelled: records are maps. `ApacheLog.Normalise` takes the key order as a parameter.
- `ETL::Engine.skip_bulk_import`, `ETL::Engine.connection(target)` and `table_name` come from the engine. They are parameters (`skip`, the `Sink`, `tableName`).
- Exceptions raised by the database are modelled as a set of calls that raise. A raise inside the transaction block is modelled as a rollback followed by stopping the loop with a failure status.
- The `puts` of `load_file_list` is left out, as it is output only.
- The names of the split files are left out: a piece is identified by its index and content. The glob is taken to return the pieces in split order, the order their lexicographic suffixes give. Stale files matching the prefix are not modelled.
- `split -l` producing no files (the `files.empty?` fallback) is modelled, but with the content in memory it only happens for empty content. That content is excluded earlier by the size check.
- `wc -l` output parsing is reduced to the newline count.
- BulkImport.Configure: `configuration[:commit_every].to_i` is taken as an integer setting already converted. Truthiness of the flags is modelled for booleans only.
- The commented-out `parse_user_agent` and `parse_uri` calls are not part of this model.
- The `super` constructors of the parser and processor base classes are not part of this model.

## Findings

| source | as written | input that shows it | evidently intended | confidence | as-written member | corrected member |
|---|---|---|---|---|---|---|
| lib/etl/parser/apache_combined_log_parser.rb:36-37 | `_strptime` accepts `%H` up to 24 with any minute and second, and `Time.mktime` then raises ArgumentError for hour 24 with a non-zero minute or second, so `parse` raises | a combined-format line with the timestamp `[10/Oct/2000:24:30:00 -0700]` | the `unless d.nil?` guard shows that a timestamp that cannot be converted is meant to stay text, not to abort `each` | medium, not executed | ApacheLog.RenderedStampRaises | ApacheLog.ParseTimesInRange |
| lib/etl/processor/escape_csv_processor.rb:36-48 | `@buffer = configuration[:buffer] \|\| 8192` accepts any value; `readpartial(0)` returns an empty string, so the `eof?` loop never ends on a non-empty source, and a negative buffer raises only after the target was emptied | `:buffer => 0` and a non-empty source file | a buffer of 0 or less refused by the constructor, like the other bad settings | medium, not executed | EscapeCsv.NoReadingsWithoutBuffer | EscapeCsv.CheckedProcessorReads |
