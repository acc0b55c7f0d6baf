# Apache log analyser: a verified model of its ingestion core

The log analyser is a small web application. Users upload Apache
access-log files and browse the parsed records. This project models its
core, `app.py`, in Dafny and proves what that code promises:

- **Line parser** (`parse_apache_log`). The fixed access-log pattern is
  matched at the start of a stripped line (`re.match`). A match becomes a
  record of its twelve capture groups.
  - The status code goes through `int()`. On a digit string that call
    raises only past the 4300-digit limit that Python gained in 3.11,
    3.10.7, 3.9.14, 3.8.14 and 3.7.14.
  - The response time goes through `float()`. That call is not guarded, so
    a token `float()` rejects raises `ValueError` instead of making the
    parse return `None`.
  - The regular expression is modelled by a small backtracking matcher of
    its own (module `Regex`). It is proved to return exactly the greedy
    match that Python's engine returns.
- **Ingestion runs.**
  - `process_log_file_async`, the background run:
    - counts the lines;
    - reads them again, updating a progress percentage every 100 lines;
    - parses each stripped line;
    - drops every record whose key `(ip, timestamp, request_type, api,
      status_code)` is already in the set `processed_logs`;
    - buffers rows in batches of 500, committed as they fill;
    - commits the last partial batch, then the record-count update of
      `files`;
    - finally replaces the file's status entry with a completed or an error
      entry.
  - `process_log_file`, the synchronous variant, inserts one row at a
    time and commits every 1000 rows.
  - Both are methods of the class `LogAnalyser`. It holds the in-memory
    status dictionary and the `files` and `logs` tables as fields.
    - A transaction is a list of uncommitted rows. A commit appends them
      to `logs`.
    - Which commit of a run fails, if any, is a parameter.
    - The lines of the file are a parameter.
- **Upload** (`upload_file`).
  - A name that already has a `files` row gets the upload timestamp
    inserted before its extension (`os.path.splitext`).
  - A `files` row with record count 0 is inserted. The insert fails
    silently when the name is taken, because the column is `UNIQUE`.
  - The status entry `{processing, 0, total 0}` is set, then the background
    run starts.
- **Status lookup** (`get_processing_status`). It returns the in-memory
  entry if there is one. Otherwise it falls back on the stored record count:
  completed when the count is above 0, unknown otherwise.
- **Read side.**
  - The `view_logs` query builder: the filter clauses and their
    parameters, the count query obtained by `str.replace`, the page offset
    and the page count.
  - The parallel builder of `api_logs`.
  - The per-file statistics merge of `dashboard`.

The Python built-ins the core relies on are modelled in module
`PyBuiltins`:
- `str.strip` with Python's whitespace set;
- `int()` and `float()` acceptance, following Python's literal grammar and
  the narrower whitespace they skip, with `int()`'s digit limit;
- the `ValueError` messages of both, which quote the token with `repr()`;
- `str.isdigit`;
- `os.path.splitext`;
- `str.replace`.

Modules:
- `Wrappers`: `Option`, `Result`, `Exception`.
- `PyBuiltins`: the built-ins above.
- `Regex`: the matcher.
- `LogParser`: the line parser.
- `FirstOccurrence`: de-duplication.
- `Ingestion`: the runs, the status entries, the lookup and the upload.
- `Views`: the read side.

### How a bad line ends a run

A response time that `float()` rejects (app.py:90) raises out of the line
loop, and so does a status code past `int()`'s digit limit (app.py:86).
Nothing catches that `ValueError` before the run's outer handler, which
ends the run with an error entry holding the exception's text
(app.py:202-207). The rows of batches already committed stay stored.

The processing entry set by the upload has no `processed` key
(app.py:336). Only the completed entry has `processed`, and it holds the
accepted-row count (app.py:192-197).

## Model

| member | source | states |
|---|---|---|
| Regex.RunMaximal | app.py:22 | A repeated character class consumes the longest prefix of class characters within its repeat bound. |
| Regex.MatchFromIsGreedy | app.py:76 | The matcher returns a match exactly when the pattern matches some prefix of the line. The match it returns is the greedy one: for every other way the pattern can match, its piece lengths are lexicographically at least as large. |
| Regex.GreedyMatchUnique | app.py:76 | There is only one greedy match. |
| Regex.SearchFindsGreedyMatch | app.py:76 | Any greedy match is the one the matcher returns. |
| Regex.PiecesAreSubstring | app.py:76-90 | The text consumed by a run of consecutive pattern items is the substring of the line that starts where the earlier items stopped. |
| LogParser.ParseApacheLog | app.py:74-92 | The parser fails only with `ValueError`. Every record it returns has a response-time token that `float()` accepts. |
| LogParser.FromPieces | app.py:78-91 | Once the pattern has matched, `int()` of group 8 runs first, as the dictionary is built in order. Group 8 is a digit string, so `int()` raises only past the digit limit, with Python's message, and otherwise gives the string's decimal value as the status code. Then `float()` of group 12 raises with its message when it rejects the token. Otherwise the record holds the groups. The parse fails exactly when one of the two conversions does. |
| LogParser.ParseNoneIffNoMatch | app.py:76-77 | The parser returns `None` exactly when the pattern does not match from the start of the line. |
| LogParser.ParseUsesGreedyMatch | app.py:76-91 | The parse of a line is built from its greedy match, and the status-code piece is a digit string. |
| LogParser.ParseFieldsAreGroups | app.py:76-91 | On a match, the parse raises the digit-limit error of group 8 when it is too long, else the `float()` error of group 12 when `float()` rejects it. Otherwise every string field is its capture group verbatim and the status code is the decimal value of the digit string of group 8. |
| LogParser.GroupIsSubstring | app.py:79-90 | Each capture group is a substring of the line. |
| LogParser.ParseFormatted | app.py:22 | Writing a well-formed record in the log format and parsing it back gives the record, whatever follows a space after the last token. The parse raises instead when the status code has more digits than `int()` converts, or when `float()` rejects the response time. |
| PyBuiltins.Strip | app.py:130 | `strip()` returns the slice left after removing leading and trailing whitespace. The result neither starts nor ends with whitespace. |
| PyBuiltins.StripIdempotent | app.py:130 | Stripping twice gives the same as stripping once. |
| PyBuiltins.DecimalString | app.py:86 | `str()` of a non-negative integer is a digit string whose decimal value is that integer. It is the inverse of the `int()` call here, which the parser's round trip through the log format needs. |
| PyBuiltins.ParseIntOfDigits | app.py:86 | `int()` of a digit string gives its decimal value, unless the string has more than 4300 digits; it then raises the digit-limit `ValueError`. |
| PyBuiltins.ParseInt | app.py:538 | `int()` of a string fails only with `ValueError`: on anything but an optionally signed literal of digits and single underscores, surrounded only by the whitespace `int()` skips (`IsNumericSpace`), or past 4300 digits. |
| PyBuiltins.SeparatorKept | app.py:538 | The separators U+001C..U+001F are whitespace to `str.strip()` but not to `int()` and `float()`, which keep a leading one. |
| PyBuiltins.SeparatorRejectedByInt | app.py:538 | `int()` rejects a literal that starts with one of those separators, with its syntax error. |
| PyBuiltins.SeparatorRejectedByFloat | app.py:90 | A property of the `float()` called here, taken on its own: it rejects any string that starts with one of those separators, as `int()` does. Group 12 is `\S+` of a stripped line, so the parser itself never hands `float()` such a token. |
| PyBuiltins.Hex | app.py:206 | The code point of a character that `repr()` escapes is written with a fixed number of lowercase hexadecimal digits. |
| PyBuiltins.ReprBodyPlain | app.py:206 | Printable characters other than the backslash and the quote are copied verbatim by `repr()`. |
| PyBuiltins.ReprBodyEscapesQuote | app.py:206 | Inside `repr()`'s quotes, every quote character is preceded by a backslash, so the quoted text cannot end early. |
| PyBuiltins.ReprPlain | app.py:206 | A printable string without backslashes and without both kinds of quote is written between single quotes, or between double quotes when it holds a single quote. |
| PyBuiltins.LastIndex | app.py:315 | The index of the last occurrence of a character, or -1 when there is none. |
| PyBuiltins.LastIndexUnique | app.py:315 | Only one index has both defining properties of the last occurrence. |
| PyBuiltins.SplitExt | app.py:315 | `splitext` splits a path into base and extension with base + extension == path. The extension is empty or starts with a dot and holds no further dot or slash. A non-empty extension follows a base holding some character other than a dot or a slash. |
| PyBuiltins.ReplaceAllAbsent | app.py:549 | `replace` leaves unchanged a string that lacks the first character of the pattern. |
| PyBuiltins.ReplaceAllLeading | app.py:549 | When the pattern occurs only at the start, `replace` rewrites only that occurrence. |
| FirstOccurrence.KeysOfMembers | app.py:133-146 | A key is in the key set of a list exactly when some record of the list has it. |
| FirstOccurrence.DedupSnoc | app.py:142-146 | A new record is kept exactly when its key is not among the keys kept so far. |
| FirstOccurrence.DedupKeys | app.py:142-146 | The set `processed_logs` is both the key set of the kept records and the key set of all records seen. |
| FirstOccurrence.DedupDistinct | app.py:142-143 | No key is kept twice. |
| FirstOccurrence.DedupCount | app.py:142-146 | The number of records kept is the number of distinct keys seen. |
| FirstOccurrence.FirstIndicesSorted | app.py:133-146 | The first-occurrence indices are strictly increasing. An index is among them exactly when no earlier record has its key. |
| FirstOccurrence.DedupIsFirstOccurrences | app.py:133-155 | The kept records are exactly the first occurrence of each key, in line order. |
| FirstOccurrence.DedupPrefix | app.py:121-155 | What has been kept after a prefix of the records is a prefix of what is kept after all of them. |
| Ingestion.RowsOf | app.py:149-155 | Each accepted record becomes one row carrying the file name and the ingestion date. |
| Ingestion.Results | app.py:130 | There is one parser result per line of the file. |
| Ingestion.ParseLine | app.py:130 | The result for a line is `parse_apache_log` of that line stripped. |
| Ingestion.ResultsAt | app.py:130 | The result at each position is the parse of that line. |
| Ingestion.FirstFault | app.py:130 | The first line whose parse raises: every earlier line parses without raising. |
| Ingestion.LineError | app.py:130 | There is an exception to report exactly when some line's parse raises. |
| Ingestion.AcceptedExtends | app.py:121-169 | The records accepted after any number of lines before the first fault are a prefix of what the run accepts. |
| Ingestion.AcceptedIsFirstOccurrences | app.py:130-155 | The records a run hands to the store are exactly the first occurrence of each key among the lines that parse before the first line that raises. |
| Ingestion.AcceptNext | app.py:130-146 | One more line adds its record exactly when it parses and its key is new. |
| Ingestion.StopAt | app.py:130 | A line that raises fixes what the run accepts and the exception it reports. |
| Ingestion.ReadAll | app.py:121-130 | With no line that raises, the run accepts what it read and reports no line exception. |
| Ingestion.AsyncOutcome | app.py:98-207 | A background run never stores more rows than it accepted. |
| Ingestion.SyncOutcome | app.py:215-274 | A synchronous run never stores more rows than it accepted. |
| Ingestion.AsyncRun | app.py:98-207 | A background run over a file stores at most the rows it accepts from the file. |
| Ingestion.SyncRun | app.py:215-274 | A synchronous run over a file stores at most the rows it accepts from the file. |
| Ingestion.AsyncCompletes | app.py:105-197 | A background run completes exactly when its file has a status entry, no line raises, and none of its commits fails. |
| Ingestion.CompletedStoresDistinctKeys | app.py:171-197 | A completed run accepts one row per distinct key among the lines that parse. |
| Ingestion.VariantsAgree | app.py:94-274 | With no commit failing, both variants raise the same line exception or none. With no line raising, both store every accepted row. Otherwise the background run keeps at least as many rows. |
| Ingestion.FailureKeepsWholeBatches | app.py:157-207 | After an exception, a background run has stored whole batches of 500 only, or every accepted row when just the record-count update failed. |
| Ingestion.ProgressWritesBelow | app.py:126-128 | Every progress value written after a given number of lines is at most the percentage for any later line count. |
| Ingestion.ProgressWritesBounded | app.py:126-128 | Every progress value written stays within 0..100. |
| Ingestion.ProgressWritesMonotone | app.py:126-128 | The progress values written never decrease. |
| Ingestion.ProgressWritesCount | app.py:126 | One progress value is written per 100 lines read. |
| Ingestion.AsyncLineErrorExit | app.py:130-207 | A background run whose line raises keeps exactly the full batches it committed before that line. |
| Ingestion.AsyncBatchFailExit | app.py:158-169 | A background run whose commit of a full batch fails keeps the batches committed before it. |
| Ingestion.AsyncFlushFailExit | app.py:172-182 | A background run whose commit of the last partial batch fails keeps only the full batches. |
| Ingestion.AsyncFinishExit | app.py:184-197 | After every batch is committed, the run's outcome depends only on the commit of the record-count update: all rows stay either way, and the run completes or reports that commit's error. |
| Ingestion.SyncLineErrorExit | app.py:227-274 | A synchronous run whose line raises keeps exactly the rows of its commits at multiples of 1000. |
| Ingestion.SyncBatchFailExit | app.py:261-274 | A synchronous run whose commit at a multiple of 1000 rows fails keeps the commits before it. |
| Ingestion.SyncFinishExit | app.py:264-274 | The last commit of a synchronous run stores the remaining rows and the record count, or, failing, neither. |
| Ingestion.SyncCommitsWhenFull | app.py:261 | The record count reaches a multiple of 1000 exactly when 1000 rows wait uncommitted. |
| Ingestion.FinalEntry | app.py:191-207 | The final entry is completed exactly when nothing was raised. A completed entry has progress 100, the line total and the stored-row count. An error entry has no progress and the text of the exception. |
| Ingestion.UniqueNameSplits | app.py:313-317 | The generated name keeps the extension: `splitext` splits it into the old base with `_` and the timestamp appended, and the old extension. |
| Ingestion.LookupStatus | app.py:346-368 | The lookup returns the in-memory entry verbatim when there is one. Otherwise it is completed, with progress 100 and the stored count, exactly when the file has a row with a count above 0, and unknown otherwise. |
| Ingestion.LookupAfterRun | app.py:357-366 | Once a completed run's entry is gone, the lookup reports the same status, progress and record count, unless the run stored no rows. |
| Ingestion.AsyncStopsAtLine | app.py:130-207 | A background run stopped by a raising line has accepted exactly the records read before it, and keeps its committed batches. |
| Ingestion.AsyncStopsAtCommit | app.py:158-169 | When a full batch fails to commit, the rows stored are the first batches of what the run accepts. |
| Ingestion.AsyncStopsAtFlush | app.py:172-182 | A background run that read every line and fails on its last partial batch keeps only the full ones. |
| Ingestion.AsyncFinishes | app.py:171-197 | A background run that read every line stores all accepted rows, and completes unless the record-count commit fails. |
| Ingestion.SyncFinishes | app.py:264-270 | A synchronous run that read every line stores all accepted rows if its last commit succeeds, and otherwise its earlier commits only. |
| Ingestion.SyncStopsAtLine | app.py:227-274 | A synchronous run stopped by a raising line has accepted exactly the records read before it. |
| Ingestion.SyncStopsAtCommit | app.py:261-274 | When a commit at a multiple of 1000 fails, the rows stored are the first ones the run accepts. |
| Ingestion.BatchInvariant | app.py:142-169 | After every line, `record_count` plus the batch length equals the size of `processed_logs`. The batch holds fewer than 500 rows. The store holds the counted rows on top of those stored before the run. |
| Ingestion.PendingAppend | app.py:142-155 | Accepting a record with a new key adds its key to the set and its row to the pending rows. |
| Ingestion.StoredThenWaiting | app.py:167-182 | Committed rows followed by the pending ones are the rows of every accepted record. |
| Ingestion.PendingFlush | app.py:172-182 | After the final commit nothing is pending, and the store holds the rows of every accepted record. |
| Ingestion.LogAnalyser.constructor | app.py:286 | The status dictionary starts empty, and so do the two tables. |
| Ingestion.LogAnalyser.Keep | app.py:131-169 | A repeated key leaves everything unchanged. A new key adds its row to the batch. A batch that reaches 500 rows is committed, counted and emptied. A failing commit stores nothing and reports its error. |
| Ingestion.LogAnalyser.ReadLine | app.py:130-169 | One line keeps the batch invariant, or stops the run with the outcome it will have. |
| Ingestion.LogAnalyser.ReportProgress | app.py:123-128 | Every hundredth line writes its percentage into the file's entry. Nothing else in the dictionary changes. |
| Ingestion.LogAnalyser.ReadStep | app.py:122-207 | One pass of the line loop updates the progress and handles the line. It keeps the invariant, or ends with the error entry and the final store. |
| Ingestion.LogAnalyser.ReadLines | app.py:121-207 | The line loop reads until the first raising line or a failing commit. The progress writes are exactly those for the lines read, and a run that completes the loop has read every line. On an exception the entry is the error entry and only committed batches are stored. |
| Ingestion.LogAnalyser.ProcessLogFileAsync | app.py:94-210 | The background run stores the first rows of the records it accepts, as many as its outcome says. It sets the file's record count only on completion. The entry ends as the final entry for the outcome. A completed run has read every line and written the progress values for all of them. |
| Ingestion.LogAnalyser.FlushLast | app.py:171-182 | The last partial batch is committed, making every accepted row stored, or fails with the outcome that failure gives. |
| Ingestion.LogAnalyser.Finish | app.py:171-207 | The end of a run that read every line: the last flush, the record-count update and the final entry, matching the run's outcome. |
| Ingestion.LogAnalyser.SyncKeep | app.py:228-262 | A repeated key changes nothing. A new key inserts a row and increments the count. A count at a multiple of 1000 commits, or fails, keeping only earlier commits. |
| Ingestion.LogAnalyser.SyncReadLine | app.py:226-262 | One line of the synchronous run keeps its invariant, or stops the run with the outcome it will have. |
| Ingestion.LogAnalyser.SyncReadLines | app.py:225-262 | The line loop of the synchronous run stops at the first raising line or failing commit. Only committed rows remain stored then. |
| Ingestion.LogAnalyser.ProcessLogFile | app.py:213-276 | The synchronous run stores the rows its outcome says, updates the record count only on success, and returns the count or re-raises. The status dictionary is untouched. |
| Ingestion.LogAnalyser.SyncFinish | app.py:264-274 | After every line is read, the last commit stores the remaining rows and the record count and returns the count, or fails and re-raises the commit's error with only the earlier commits stored. |
| Ingestion.LogAnalyser.RegisterUpload | app.py:307-336 | A taken name is replaced by the timestamped name. A new name gets a `files` row with count 0, and an existing row is left as it is. The name gets the started entry. |
| Ingestion.LogAnalyser.UploadFile | app.py:301-339 | The upload registers the stored name and runs the background ingestion under it. The store, the record count and the final entry are those of that run. |
| Views.Clauses | app.py:532-546 | There is one condition per filter that is set. |
| Views.ClausesAreConditions | app.py:532-546 | Each filter clause ends in its one placeholder. |
| Views.ParamsOf | app.py:532-546 | The parameters are the clauses' values, one per clause, in order. |
| Views.PlaceholdersMatchClauses | app.py:529-546 | A query built from filter clauses has one placeholder per parameter. |
| Views.CountQueryOf | app.py:549 | Replacing `SELECT *` by `SELECT COUNT(*)` in the filtered query gives the count query over the same conditions. |
| Views.AddFilter | app.py:532-546 | A filter that is set appends its clause to the query and its value to the parameters. An unset filter changes neither. |
| Views.BuildViewQuery | app.py:518-557 | The builder returns the queries of the log list for the filters and the page. For a status code that `int()` rejects, including one past the digit limit, it returns `int()`'s error. |
| Views.ViewQueryOf | app.py:529-557 | The queries built over the set filters' conditions are the log list's queries. |
| Views.ViewQueryPlaceholders | app.py:529-557 | The log list fails exactly when a status code is given that `int()` rejects, with `int()`'s error. Otherwise each query has one parameter per placeholder and one per set filter. The page query has the limit and the offset as two more parameters, after the shared ones. |
| Views.CountPageClause | app.py:556 | The pagination clause has two placeholders. |
| Views.TotalPagesIsCeiling | app.py:572 | The page count covers every row, the last page is not empty, and there are no pages exactly when there are no rows. |
| Views.OffsetWithinRows | app.py:554-557 | A page from 1 to the last starts within the rows, and each page starts 100 rows after the previous one. |
| Views.AddApiFilter | app.py:659-677 | A filter that is set appends the same clause to both queries and its value once to the shared parameters. |
| Views.BuildApiQuery | app.py:655-684 | The builder returns the endpoint's listing and count queries for the filters, or the error of `int()` on a digit-string status code. |
| Views.ApiQueryOfBuilt | app.py:655-684 | The queries built over the set filters' conditions, with the status bound as `api_logs` binds it, are the endpoint's queries. |
| Views.ApiQueryPlaceholders | app.py:655-684 | The endpoint fails exactly when the status code is a digit string of more than 4300 digits, with the digit-limit error. Otherwise both queries have one placeholder per shared parameter and per set filter, and the count query is the listing query without its limit, with `SELECT *` replaced by `SELECT COUNT(*)`. |
| Views.ViewAndApiAgree | app.py:664-667 | When the status code is absent or made of digits, the log list and the endpoint both fail, with the same error, exactly when the code has more than 4300 digits. Otherwise they count with the same query and parameters. |
| Views.MergeFileStats | app.py:418-432 | Every file is listed in order with its name, date and count. Its statistics are copied when it has any, and are 0 and 0 otherwise. |

## Left out

- `\w` and `\d` are ASCII-only in the model. Python's `re` matches Unicode word characters and digits there; `\s` and `strip()` use Python's exact whitespace set.
- PyBuiltins.ParseInt: `int()` accepts ASCII digits only in the model. Python's `int()` also accepts other Unicode decimal digits, such as `٣`, so the model rejects a status filter that Python accepts.
- PyBuiltins.ParseInt: a malformed literal that also has more than 4300 digits gets the syntax error in the model; Python may report the digit-limit error for it.
- PyBuiltins.IsFloatLiteral: ASCII digits only. Python's `float()` also accepts any Unicode decimal digit, for example `٠.٥`. On such a response time the model's run raises where Python's continues.
- Views.BuildApiQuery: `isdigit()` is modelled as ASCII-only. Python's `isdigit()` is also true of characters such as `²` that `int()` rejects. `api_logs` then raises an uncaught `ValueError` at app.py:667, where the model binds the status code as text.
- PyBuiltins.IsPrintable: the printable set is approximated by ranges. Non-ASCII format, unassigned and private-use code points outside the listed ranges are copied verbatim by the model's `Repr`, where Python escapes them.
- The `ValueError` messages follow Python 3.12. Python releases without the digit limit (before 3.11, 3.10.7, 3.9.14, 3.8.14 and 3.7.14) never fail on a digit string.
- Ingestion.LogAnalyser.ReadLines: on a run that raises, the number of lines read is bounded by the line count only; the contract does not name the line at which the run stopped, so the progress writes of a failed run are not fixed.
- Ingestion.LogAnalyser.ProcessLogFileAsync: as for ReadLines, the lines read and the progress writes are fixed only for a completed run.
- The floating-point value of the response time is not modelled. The record keeps the token that `float()` accepted.
- Ingestion.ProgressWrites: the progress `int((c / t) * 100)` is modelled as the exact floor `c * 100 / t`. The IEEE result can be one lower; for example, 2900 of 10000 lines gives 28.
- File I/O, `secure_filename`, `file.save` and `os.rename` are not modelled. The lines of the file are a parameter, and both passes see the same lines.
- The clock is not modelled. `datetime.now()` is replaced by the parameters `stamp`, the upload timestamp, and `now`, the ingestion date. The `upload_date` column of `files` is not modelled; `files` maps a name to its record count.
- sqlite is not modelled: connections, `get_db_connection` failures, the WAL pragma, `executemany` and the `init_db` schema. A failing statement or commit is reduced to the index of the commit that fails, which also covers a failing `UPDATE` before its commit.
- Errors during upload are not modelled, apart from the silently ignored insert of a name that is already taken. This includes a failing `SELECT` or `INSERT`, which `upload_file` prints and ignores.
- Ingestion.LookupStatus: the database error path of the lookup, which also answers unknown, is not modelled. The `files` map is always readable.
- Threading is not modelled. A run is executed to its end, alone, in place of the detached thread, and nothing else reads or writes the status dictionary meanwhile.
- The `type=int` conversion of the `page` argument of `view_logs` is not modelled; the page is given as an integer.
- The execution of the queries by sqlite is not modelled: the rows they return, the distinct filter options and the grouped statistics of the dashboard. The merge takes its rows and statistics as inputs.
- Flask routing, templates, `flash`, `redirect`, `jsonify` and the conversion of rows to dictionaries are not modelled. Nor are the `index`, `analytics`, `delete_file` and `reset_data` routes or the dashboard charts.
- dash_app.py and static/js/main.js are not part of this model.
