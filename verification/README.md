# Web-server diagnostics: log ranking and process listing, modelled in Dafny

The repository has two small command-line diagnostics.

`procsql.py` reads an Apache access log. It matches each line against the
Common Log Format prefix
`host ident user [timestamp] "method url protocol" status bytes`. It keeps
the requests whose url contains `index.php` and counts, per url, the hits
and the hits per status code. Both the url table and each status table keep
keys in the order they were first seen. It then prints the 20 urls with the
most hits, sorted stably in descending order, each with its status codes
rendered as `code:count, code:count, …`. The same file can also list the
active statements of a MySQL server. It shows a row unless the session
sleeps or runs nothing, and cuts each query to 55 characters. The
`--mysql-user` and `--mysql-password` flags decide whether that check runs,
whether an error is printed, or whether nothing happens.

`proc.py` reads the output of `ps -eo pid,user,%cpu,%mem,args`:

- it skips the header line;
- it splits each other line on whitespace into at most five fields, the last
  of which keeps the rest of the line;
- it drops lines with too few fields or with a cpu or mem field that is not
  a number;
- it keeps pid and user as the raw field text: the pid is not converted to
  an integer, so the model carries it as a string;
- it prints the records twice, sorted stably by cpu and by mem, both
  descending, or prints "No processes found" when there are none.

The model is a set of pure functions over immutable values:

| module | file | what it holds |
|---|---|---|
| `Wrappers` | wrappers.dfy | `Option` with the `:-` failure propagation |
| `Text` | text.dfy | Python's whitespace and digit classes, runs of a character class, decimal numerals, substring test, prefix cut |
| `Sequences` | sequences.dfy | parse-or-skip over a sequence (`FilterMap`) |
| `OrderedMap` | ordered_map.dfy | insertion-ordered map (keys in first-seen order plus a map), `defaultdict`-style update, tally of a sequence |
| `Ranking` | ranking.dfy | `sorted(xs, key=…, reverse=True)` as a stable descending insertion sort, its characterisation, top-K |
| `AccessLog` | access_log.dfy | the log-line pattern as a hand-written recogniser, with a renderer it inverts |
| `UrlStats` | url_stats.dfy | the `index.php` filter and the fold into the url table |
| `LogReport` | log_report.dfy | ranking, the top 20 and the status string, with a reader that inverts the status string |
| `MySql` | mysql.dfy | the process-list row rule and the credential-flag decision |
| `PsParse` | ps_parse.dfy | `str.splitlines`, `str.split(maxsplit=4)`, `float` on decimal literals, `get_processes` |
| `PsReport` | ps_report.dfy | `main` and the row rule of `print_processes` |
| `Scenarios` | scenarios.dfy | a five-line access log worked through from text to report |
| `PsScenarios` | ps_scenarios.dfy | two process records worked through to both tables |

The regular expression is written out as a parser. Each `\S+` group followed
by a space is the longest run of non-whitespace characters. The timestamp is
a non-empty run of characters other than `]`. The protocol is the longest
non-whitespace run minus its final `"`. Status and byte count are digit runs.
Only the start of the line has to match.

The log-line recogniser is proved in both directions. It reads back what
the renderer writes, and whatever it accepts starts with the rendered form of
the request it returns. The status-string reader, `splitlines` and
`split(maxsplit=4)` are proved in the render-then-read direction only, and a
converse could not hold. The reader accepts `2:03` as the pair (2, 3), which
renders as `2:3`. `splitlines` also breaks at `\r\n`, while the join
writes `\n`. Python's `sorted(..., reverse=True)` is modelled as a stable
insertion sort. It is proved to be the one descending arrangement that keeps
the input order among equal keys.

## Model

| member | source | states |
|---|---|---|
| `AccessLog.ParseLogLineComplete` | procsql.py:7 | a well-formed request (non-empty non-whitespace host, ident, user, method, url and protocol, a non-empty timestamp without `]`, digit-only status and byte count), written in Common Log Format and followed by anything that does not continue the byte count, matches with exactly those groups |
| `AccessLog.ParseLogLineSound` | procsql.py:7 | every matching line starts with the Common Log Format text of a well-formed request; so a `-` byte count or an empty field never matches; the text after the byte count is unconstrained except that it does not continue the digits |
| `AccessLog.Protocol` | procsql.py:7 | the protocol group is non-empty and free of whitespace; the closing quote follows it, and the quote is followed by whitespace or nothing |
| `AccessLog.WordThenSpace` | procsql.py:7 | a `(\S+) ` group is a non-empty non-whitespace word followed by one space |
| `AccessLog.TimePartSound` | procsql.py:7 | the `\[([^\]]+)\] "` part captures a non-empty timestamp without `]` |
| `AccessLog.StatusPartSound` | procsql.py:7 | the `(\d+) (\d+)` part captures two numerals, and the byte count is the longest digit run |
| `UrlStats.KeptRequest` | procsql.py:13-19 | a line contributes a request exactly when it matches and its url contains `index.php` |
| `UrlStats.StepIgnores` | procsql.py:13-19 | a non-matching line, or one whose url lacks `index.php`, leaves the url table unchanged |
| `UrlStats.Record` | procsql.py:20-21 | one counted request bumps its url's count and its status code's count, creating either entry with zero first; other urls are untouched; a new url is appended to the key order |
| `UrlStats.Aggregate` | procsql.py:8-21 | the table built over all lines is a valid ordered map and every status table in it is valid |
| `UrlStats.AggregateOrder` | procsql.py:8-21 | the url keys are the counted urls in order of first occurrence |
| `UrlStats.AggregateValues` | procsql.py:19-21 | each url's count is the number of counted requests for it, and its status table is the tally of their status codes |
| `UrlStats.AggregateSpec` | procsql.py:8-21 | key order, counts and status tallies together, over any sequence of lines |
| `UrlStats.AggregateTotals` | procsql.py:20-21 | every key has count at least 1, its status counts add up to its count, and every status key is a numeral |
| `UrlStats.KeptWellFormed` | procsql.py:7-19 | every counted request is one the pattern recognised: all its fields are well formed, its status code a numeral |
| `UrlStats.AggregateCodesNumeral` | procsql.py:17-21 | every status key of the table is a numeral, as the `(\d+)` group captured it |
| `OrderedMap.Update` | procsql.py:20-21 | `defaultdict` update: the key gets f of its old value or of the default; other keys keep their values; a new key goes at the end of the key order |
| `OrderedMap.TallySpec` | procsql.py:21 | a tally lists each value once in first-seen order, with its number of occurrences, and the counts add up to the length |
| `OrderedMap.FirstSeenOrderAppend` | procsql.py:20 | appending an occurrence keeps the first-seen order, extending it exactly when the value is new |
| `Ranking.SortDesc` | procsql.py:25 | sorting yields a permutation of the input in non-increasing key order |
| `Ranking.SortStable` | procsql.py:25 | for every key value, the elements with that key keep their input order |
| `Ranking.SortCharacterised` | procsql.py:25 | any descending arrangement that keeps the input order among equal keys is the sorted sequence itself |
| `Ranking.SortIdempotent` | procsql.py:25 | sorting an already descending sequence changes nothing |
| `Ranking.TopK` | procsql.py:25 | the slice `[:k]` of the sorted sequence has min(k, n) elements, is descending, is drawn from the input, and no element left out has a key above one taken |
| `LogReport.Entries` | procsql.py:25 | `url_stats.items()`: one entry per url, in key order, with that url's record |
| `LogReport.EntriesDistinct` | procsql.py:25 | the entries are exactly the table's (url, record) pairs, with no url listed twice |
| `LogReport.Ranked` | procsql.py:25 | the ranked entries number min(20, urls), are in non-increasing hit order, and each is a (url, record) pair of the table |
| `LogReport.RankedSelection` | procsql.py:25 | the ranked entries are taken from the table's entries, and none left out has more hits than one taken |
| `LogReport.RankedPrefix` | procsql.py:25 | the ranked entries are a prefix of a permutation of all entries |
| `LogReport.RankedTies` | procsql.py:25 | among entries with equal hit counts, the reported ones are the first of them in first-seen url order |
| `LogReport.ReportRows` | procsql.py:25-27 | at most 20 rows, min(20, urls) of them, row i printing the url, count and status string of the i-th ranked entry |
| `LogReport.ReportRowsSorted` | procsql.py:25-27 | the printed hit counts are non-increasing |
| `LogReport.ReportRowsMeaning` | procsql.py:19-27 | every printed row's hit count is the number of counted requests for its url (at least 1), and its status string renders the tally of their status codes |
| `LogReport.ReportDominates` | procsql.py:25 | a url left out of the report has no more hits than any reported url |
| `LogReport.Pairs` | procsql.py:26 | `status_codes.items()`: the (code, count) pairs in key order |
| `LogReport.ParseItemsRoundTrip` | procsql.py:26 | a non-empty list of `code:count` items joined by `", "` reads back as that list |
| `LogReport.ReportStatusReadsBack` | procsql.py:17-27 | the status string of every printed row reads back as the (code, count) pairs of that url's status table, in first-seen order |
| `LogReport.StatusStringRoundTrip` | procsql.py:26 | the status string lists every status code with its count in first-seen order and can be read back without loss |
| `MySql.QueryLineOf` | procsql.py:52-53 | for a row with a state and a statement, the printed query is the first min(55, len) characters of `Info`; id, user, time and state are passed through |
| `MySql.ActiveQueries` | procsql.py:50-53 | the loop never prints more lines than rows were fetched |
| `MySql.ActiveQueriesSingle` | procsql.py:51-56 | a row yields its line when its command is not `Sleep`, its `Info` is not NULL and its State is not NULL; a shown row with NULL State stops the listing; any other row yields nothing |
| `MySql.ActiveQueriesConcat` | procsql.py:50-56 | rows are handled one at a time in order: once the first part stops, the second adds nothing; otherwise its lines follow those of the first |
| `MySql.ActiveQueriesCount` | procsql.py:50-56 | the listing stops exactly when some row is shown with a NULL State; otherwise there is one line per shown row |
| `MySql.DbDecision` | procsql.py:69-72 | the check runs iff both user and password are non-empty; the error is printed iff exactly one is; otherwise nothing happens |
| `MySql.CommandPlan` | procsql.py:66-72 | the log is analysed iff `--log` is non-empty, and which database step is chosen does not depend on `--log`; whether that step is reached once the log analysis raises is not modelled |
| `PsParse.SplitLines` | proc.py:16 | `splitlines()` gives no lines for empty text, and no line contains a line break |
| `PsParse.SplitLinesJoin` | proc.py:16 | lines without breaks, joined with `\n`, split back into the same lines |
| `PsParse.SplitWs` | proc.py:23 | `split(maxsplit=m)` gives at most m+1 fields; each is non-empty and starts with a non-space; every field but the last of m+1 contains no whitespace |
| `PsParse.SplitWsJoin` | proc.py:23 | words separated by any non-empty runs of whitespace, after leading whitespace, with a last field that may hold whitespace (or, when fewer fields than the limit, trailing whitespace), split back into exactly those fields; a line of only whitespace gives no fields |
| `PsParse.SplitWsGap` | proc.py:23 | a leading word and the whitespace run after it are split off as one field, and the rest splits with one split fewer |
| `PsParse.ParseDecimal` | proc.py:31-32 | a number is accepted only if the field is non-empty and consists of an optional sign followed by ASCII digits and points |
| `PsParse.ParseDecimalNat` | proc.py:31-32 | a numeral reads as its value |
| `PsParse.ParseDecimalTenths` | proc.py:31-32 | a value with one decimal place, as `ps` prints `%CPU` and `%MEM`, reads as that value |
| `PsParse.ParseProcessLine` | proc.py:23-37 | an accepted line yields a record whose pid and user are whitespace-free raw tokens and whose command is non-empty |
| `PsParse.ParseProcessLineOf` | proc.py:23-35 | a line of five fields, padded with any runs of whitespace as `ps` pads its columns, yields the record of those fields, with the command's inner whitespace kept, exactly when the third and fourth fields read as numbers |
| `PsParse.ParseProcessLineShort` | proc.py:23-25 | a line of fewer than five fields, whatever whitespace surrounds and separates them, is skipped |
| `PsParse.ParseAll` | proc.py:21-37 | there are never more records than data lines |
| `PsParse.ParseAllConcat` | proc.py:21-37 | a skipped line contributes nothing and parsing carries on after it |
| `PsParse.ParseAllSingle` | proc.py:22-37 | one line contributes its record when accepted and nothing otherwise |
| `PsParse.ParseAllAccepted` | proc.py:21-35 | when every line is accepted there is one record per line, in input order |
| `PsParse.DataLines` | proc.py:16-22 | empty output has no data lines |
| `PsParse.HeaderSkipped` | proc.py:16-22 | the first line is never parsed, whatever it holds: the data lines are exactly the lines after it |
| `PsParse.GetProcesses` | proc.py:10-39 | a `ps` call that exits with a non-zero status gives no records; otherwise the records are those of the data lines, in order, collected by the loop |
| `PsReport.RowFor` | proc.py:47 | a row shows pid, user, the sort key's value in the third column, mem in the fourth, and the first min(80, len) characters of the command |
| `PsReport.Table` | proc.py:46-47 | a table has one row per record, row i being the row of the i-th record in sorted order |
| `PsReport.Report` | proc.py:52-62 | "No processes found" exactly when there are no records; otherwise two tables, each with one row per record |
| `PsReport.RunReport` | proc.py:49-62 | `main` reports no processes exactly when `ps` exited with a non-zero status or no data line was accepted, and otherwise prints the tables of the parsed records |
| `PsReport.SortedByArrangement` | proc.py:57-58 | each sorted list is a permutation of the records, non-increasing in its key, with equal keys in input order |
| `PsReport.SortedByUnique` | proc.py:57-58 | no other arrangement has those three properties |
| `PsReport.SortedByIdempotent` | proc.py:57-58 | records already in descending order keep their order |
| `PsReport.TableDescending` | proc.py:57-62 | the third column of each table is non-increasing |
| `PsReport.TableColumns` | proc.py:47 | in the memory table both numeric columns show mem; in the cpu table the third column shows cpu |
| `PsReport.TablePermutation` | proc.py:57-62 | each table holds the rows of exactly the parsed records, each as often as it was parsed |
| `Scenarios.IndexHitKept` | procsql.py:13-19 | the line `1.1.1.1 - - [t] "GET /index.php?a=1 HTTP/1.1" 200 512` matches and is counted as that request |
| `Scenarios.OtherHitDropped` | procsql.py:13-19 | the same line for `/other.php` matches but is not counted |
| `Scenarios.KeptThreeTwo` | procsql.py:12-19 | of three counted lines followed by two ignored ones, exactly the three requests are counted, in order |
| `Scenarios.AggregateThreeTwo` | procsql.py:12-21 | three counted lines and two ignored ones build the table of the three hits alone |
| `Scenarios.ThreeHitsTable` | procsql.py:20-21 | three hits on one url with status 200 give one key, count 3, and the status table {200: 3} |
| `Scenarios.ExampleLogTable` | procsql.py:8-21 | the five-line example log yields one url `/index.php?a=1` with count 3 and status table {200: 3} |
| `Scenarios.StatusStringSingle` | procsql.py:26 | a status table with a single code renders as the one item `code:count` |
| `Scenarios.ExampleReport` | procsql.py:8-27 | the five-line example log is reported as the single row `/index.php?a=1`, 3 hits, `200:3` |
| `Scenarios.StatusReaderLenient` | procsql.py:26 | the status-string reader accepts `2:03` as the pair (2, 3), which renders as `2:3`, so reading is proved only in the render-then-read direction |
| `PsScenarios.ShortCommand` | proc.py:47 | a command of at most 80 characters is printed whole |
| `PsScenarios.CpuTable` | proc.py:57-61 | of records with cpu 0.5 and 3.0, the cpu table lists the 3.0 record first and shows cpu in the third column |
| `PsScenarios.MemTable` | proc.py:58-62 | of records with mem 1.0 and 0.2, the memory table lists the 1.0 record first and shows mem in both numeric columns |
| `PsScenarios.SplitLinesCrLf` | proc.py:16 | `splitlines` reads `a\r\nb` as the lines `a` and `b`, which join to `a\nb\n`, so splitting is proved only in the join-then-split direction |
| `PsScenarios.TwoProcessReport` | proc.py:52-62 | two records are reported as two tables, not as "No processes found", in cpu order and in mem order |

## Left out

- Opening the log file, iterating over its lines and the `FileNotFoundError` message (procsql.py:10-12, 29-30) are I/O. The log enters the model as a sequence of lines.
- Only `FileNotFoundError` is caught around the log (procsql.py:29). Any other error from opening or decoding it — `IsADirectoryError` or `PermissionError` from `open` (procsql.py:11), or `UnicodeDecodeError` from a line not valid in the locale's encoding inside `for line in f` (procsql.py:12) — escapes `analyze_apache_log` before the report header is printed, ends `main` (procsql.py:67) with a traceback, and skips the MySQL step (procsql.py:69-72). These errors are not modelled; no input of the model stands for them.
- Printing the report headers, the column widths and padding (procsql.py:23-27, 46-54, proc.py:42-47) is cosmetic. Rows are records of field values. The `.1f` rendering of cpu and mem is left out too.
- The connection to MySQL, the `SHOW FULL PROCESSLIST` query and the `pymysql.Error` message (procsql.py:33-44, 56-57) belong to a foreign client. The fetched rows enter the model as values. Id, User and Time are taken as always present, as the server always fills them; a NULL State is modelled.
- Parsing the command line with `argparse` (procsql.py:60-64) is left out. The three options enter the model as optional strings.
- Running `ps` and the `CalledProcessError` path (proc.py:5-14) spawn a process. The output enters the model as an optional string, with None standing for a non-zero exit status, the only error the code catches.
- A `ps` that cannot be started at all (proc.py:11) raises `FileNotFoundError` or another `OSError`, which escapes `get_processes` and ends `main` with a traceback. Spawn errors are not modelled; no input of the model stands for them.
- `PsParse.ParseDecimal`: accepts only an optional sign followed by ASCII digits with at most one point and at least one digit, so `5.` and `.5` are accepted. Python's `float()` also accepts surrounding whitespace, exponents, `inf`, `nan`, digit-group underscores and non-ASCII Unicode decimal digits (`float('١٢')` is 12.0), none of which `ps` prints. The value is an exact real, not a binary double.
- `AccessLog.ParseLogLine`: digits are the ASCII digits 0-9. Python's `\d` also matches other Unicode decimal digits, so a line whose status code holds such a digit, or whose byte count starts with one, is rejected by the model but matched by the source. A byte count that only continues with such digits is matched by both; the model's captured byte count is then shorter, and the program never reads it.
- Python's `for line in f` splits on universal newlines and keeps the line ending. The model takes the lines as given; the pattern's prefix match ignores whatever follows the byte count.
