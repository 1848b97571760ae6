# API testing dashboard backend, modelled in Dafny

This project models the sequential logic of a FastAPI backend that collects HTTP
API definitions, tests them, records Playwright browser tests and converts them
to pytest, and starts `locust` load tests. The modelled parts are:

- **Request ingestion** (`backend/main.py`):
  - the token walk of `parse_curl_command`, over the already-split argument list;
  - the request-text part of `parse_burp_xml`. This covers the request line, the header lines up to the first blank line, and the body after it;
  - `convert_burp_to_api`;
  - the name rule shared by both parsers: the last `/` segment of the URL, or `Unnamed API`.
- **The in-memory `apis` list** (`backend/main.py`): appending uploads, `delete_api`, `delete_all_apis`, the status transitions of `run_api_test` and `run_all_apis`, and the per-status summary.
- **Aggregation and load-test helpers** (`backend/main.py`):
  - the metrics of `run_performance_test`;
  - the field pick of `loadtest_status` from the last line of the statistics history;
  - the flags that `run_locust` and `stop_loadtest` set and test.
- **Test-case bookkeeping** (`backend/app/testcases.py`):
  - the file name and stored path of `save_testcase`;
  - the pass/fail/warning classification and reason of `run_testcases`;
  - the `repair_testcase_paths` pass over the stored paths.
- **Recording conversion** (`backend/services/playwright_runner.py`): the `SAFE_NAME_RE` check, the test-name derivation, the dedent of the recorded `run` body, and its re-indentation into a pytest function.
- **Nested-array flatten** (`Practice/JavaScript/flattenArray.js`): the loop version, the two-level `flatMap` version and the `reduce` version.

The code has no in-process load engine (no worker pool, ticket counter or shared aggregator): `run_locust` writes a locustfile and starts the external `locust` tool, and the status endpoint reads the CSV file that tool writes. The model follows the code: it covers only the flags and the CSV field selection.

Modules, one file each:

- `Wrappers`: `Option` and `Result`.
- `Text`: Python string operations, namely `strip`, `split`, `join`, `find`, `in`, slicing, `replace` and ASCII `upper`/`lower`.
- `Flatten`, `Apis`, `Curl`, `Burp`, `Performance`, `LoadTest`, `Playwright`, `TestCases`.

Where the source changes state step by step, the model is imperative too:

- The `apis` list is the `seq` field of class `Apis.ApiStore`.
- The load-test globals are fields of `LoadTest.LoadTestControl`.
- The cURL token walk, the Burp line loop, the flatten loop and the run-testcases loops are `while`/`for` methods. Each is proved equal to a specification function.
- The repair pass updates an `array` in place.

## Model

| member | source | states |
|---|---|---|
| Flatten.FlattenArray | Practice/JavaScript/flattenArray.js:1-11 | the loop's result is the leaves of the input, left to right |
| Flatten.LeavesOfAreFlat | Practice/JavaScript/flattenArray.js:3-10 | the flattened result contains no array element |
| Flatten.LeavesOfConcat | Practice/JavaScript/flattenArray.js:3-10 | flattening distributes over concatenation |
| Flatten.LeavesOfCount | Practice/JavaScript/flattenArray.js:3-10 | the result length equals the number of leaves |
| Flatten.FlatInputUnchanged | Practice/JavaScript/flattenArray.js:2-7 | an already-flat input, the empty one included, is returned unchanged |
| Flatten.FlattenIdempotent | Practice/JavaScript/flattenArray.js:1-11 | flattening a flattened array changes nothing |
| Flatten.FlattenExample | Practice/JavaScript/flattenArray.js:13-15 | the example array flattens to 1, 2, 4, …, 14 as the comment says |
| Flatten.FlatMapAgreesWhenShallow | Practice/JavaScript/flattenArray.js:18-23 | the two-level `flatMap` equals the full flatten when nesting depth is at most 2 |
| Flatten.FlatMapFlatIffShallow | Practice/JavaScript/flattenArray.js:18-23 | the `flatMap` result is flat if and only if every element is nested at most two deep |
| Flatten.FlatMapKeepsDeepArrays | Practice/JavaScript/flattenArray.js:18-23 | a third level of nesting survives the `flatMap` |
| Flatten.InnerFlatMap | Practice/JavaScript/flattenArray.js:18-23 | the two-level `flatMap` as written: an array element contributes its elements with their own arrays spread one level, any other element itself; its meaning is stated by the three lemmas above |
| Flatten.ReduceFlattenIsLeaves | Practice/JavaScript/flattenArray.js:49-57 | the `reduce` version equals the flatten on every input |
| Flatten.ReduceFlatten | Practice/JavaScript/flattenArray.js:49-57 | the `reduce` version as written, starting from the empty accumulator; ReduceFlattenIsLeaves states its meaning |
| Flatten.ReduceFrom | Practice/JavaScript/flattenArray.js:50-56 | the `reduce` callback applied over the rest of the array, recursing into array elements through `arguments.callee` |
| Apis.ApiName | backend/main.py:149 | the name given to a parsed API is never empty |
| Apis.ApiNameRule | backend/main.py:802 | the name is `Unnamed API` exactly when the URL is empty or ends in `/`; otherwise it is the URL's last `/`-free segment |
| Apis.HeaderEntry | backend/main.py:110-112 | a header line yields no entry exactly when it has no `:` |
| Apis.AddHeader | backend/main.py:787-789 | a line without `:` leaves the headers alone; otherwise the text before its first `:`, stripped, is set to the text after that `:`, stripped |
| Apis.StoreHeader | backend/main.py:110-112 | the in-place header update of a line gives the headers `AddHeader` describes, whether or not the line holds `:` |
| Apis.HeaderEntryRoundTrip | backend/main.py:788-789 | `key:value` with a `:`-free key is split at the first `:` and both halves are stripped |
| Apis.AddHeaderLine | backend/main.py:787-789 | adding the line `key:value` with a `:`-free key sets the stripped key to the stripped value and changes no other key |
| Apis.HeaderOverwrite | backend/main.py:789 | of two header lines with the same key, the later value wins |
| Apis.FinalStatus | backend/main.py:587-607 | a test ends `completed` exactly when it returned without an error and with success; otherwise `failed` |
| Apis.FinalResults | backend/main.py:584-614 | an exception is stored as an unsuccessful result carrying its message, time 0 and no status code |
| Apis.FirstIndex | backend/main.py:575 | finds the first entry with the id, or none exactly when no entry has it |
| Apis.WithoutId | backend/main.py:840 | the filter drops exactly the entries with the id and keeps every other entry |
| Apis.WithoutIdConcat | backend/main.py:840 | the filter keeps the survivors in their original order |
| Apis.WithoutIdNoMatch | backend/main.py:840-842 | when no entry has the id, the list is unchanged |
| Apis.SummaryTotal | backend/main.py:629-634 | the four status counts add up to the length of the list |
| Apis.CountStatus | backend/main.py:629-634 | the number of entries with a status, never more than the list holds |
| Apis.Summarize | backend/main.py:629-634 | the `status_summary` object, one count per status; SummaryTotal states that the counts add up to the number of entries |
| Apis.CountStatusConcat | backend/main.py:183 | appending uploads adds their counts to the summary |
| Apis.CountStatusAfterUpdate | backend/main.py:581 | changing one entry's status moves one unit between two counts |
| Apis.CountStatusAbsent | backend/main.py:317-322 | a status nobody has counts zero |
| Apis.RunAllRecord | backend/main.py:268-307 | an entry already running is left alone; any other one takes the final status and results of its test, all its other fields kept |
| Apis.Queued | backend/main.py:268-276 | the positions `run_all_apis` queues: strictly increasing, and a position is queued exactly when its entry is not running |
| Apis.QueuedCount | backend/main.py:268-276 | the queue has one position per entry that is not running |
| Apis.FinishedRecords | backend/main.py:278-307 | the results number the entries that were not running, each completed or failed and carrying the id of its entry |
| Apis.FinishedHas | backend/main.py:278-307 | every entry that was not running has its finished record among the results |
| Apis.ApiStore.constructor | backend/main.py:39 | the list starts empty |
| Apis.ApiStore.Append | backend/main.py:181-184 | uploads append their records in order |
| Apis.ApiStore.DeleteAll | backend/main.py:830-834 | the list becomes empty |
| Apis.ApiStore.Delete | backend/main.py:836-843 | the list becomes the filter; success exactly when some entry had the id; on 404 the list is unchanged |
| Apis.ApiStore.MarkRunning | backend/main.py:575-581 | 404 exactly when no entry has the id; otherwise the first such entry becomes `running` and nothing else changes |
| Apis.ApiStore.RecordOutcome | backend/main.py:584-614 | the record found before the await takes the final status and results and is returned; its entry in the list is updated while it is still listed, and the list is untouched once a concurrent delete removed it; there is no 404 here |
| Apis.ApiStore.RunAll | backend/main.py:262-323 | every entry becomes its run-all record; the results are exactly one finished record per entry that was not running, in list order; each is completed or failed; no entry is left pending |
| Apis.ApiStore.StartTasks | backend/main.py:268-276 | exactly the entries not running are marked running and queued, in list order (the queue is `Queued` of the list); no other entry changes |
| Apis.ApiStore.FinishTasks | backend/main.py:278-312 | every queued entry ends as its run-all record and is returned in queue order; the rest are as before the run |
| Apis.ApiStore.Summary | backend/main.py:629-634 | the summary counts every entry once |
| Apis.UploadTestDelete | backend/main.py:571-619 | upload two, test one successfully, delete the other: the summary is one completed and nothing else |
| Apis.DeleteDuringTest | backend/main.py:571-619 | a delete while a test awaits its outcome: the handler still answers with the record it found, now completed, and the list stays empty |
| Curl.ParseCurl | backend/main.py:768-810 | on success the URL is non-empty, does not start with `-`, is one of the argument tokens, and the record is pending and named by the name rule; ParseCurlUrl and ParseCurlFlags say which token and which flag values |
| Curl.ParseCurlCommand | backend/main.py:770-810 | the `while` loop over the tokens computes exactly the token-scan definition |
| Curl.Scan | backend/main.py:779-797 | the walk from a position: the only error it raises is a recognised flag's missing argument |
| Curl.ApplyFlag | backend/main.py:781-794 | the effect of `-X`, `-H` or a data flag and its argument; a flag never sets the URL |
| Curl.ParseCurlErrors | backend/main.py:771-772 | the command is rejected as not cURL exactly when the token list is empty or its first token is not `curl` in any case; a missing argument is reported only for a flag in last position |
| Curl.ScanError | backend/main.py:781-792 | the scan fails only on a recognised flag with no token after it |
| Curl.ScanFails | backend/main.py:779-794 | the walk fails exactly when the last token is a recognised flag that the walk reads as a token rather than as an argument |
| Curl.ScanUrlRule | backend/main.py:795-799 | with no URL yet, the URL stays empty exactly when the walk reads no non-empty token free of a leading `-`, and otherwise it is the first such token |
| Curl.ScanMethodRule | backend/main.py:781-794 | the method is the last method flag's argument upper-cased, or the starting method, turned into `POST` from `GET` when a data flag is read after it |
| Curl.MethodStep | backend/main.py:781-794 | the method rule from one position follows from the rule from the next position |
| Curl.ScanBodyRule | backend/main.py:790-792 | the body is the argument of the last data flag the walk reads, or the starting body without one |
| Curl.ScanHeadersRule | backend/main.py:784-789 | the headers are the starting headers updated by each header argument the walk reads, in order |
| Curl.HeaderArgsAt | backend/main.py:784-786 | the header arguments collected are exactly the tokens after the header flags the walk reads |
| Curl.ParseCurlUrl | backend/main.py:771-799 | the URL is the first token the walk reads that is non-empty and does not start with `-`; `No URL` is raised exactly when the walk completes without reading one; a missing argument is raised exactly when the walk reads the last token as a flag |
| Curl.ParseCurlFlags | backend/main.py:774-794 | the method follows the method rule from `GET`; the body is the last data argument or none; the headers are the header arguments applied in order to an empty map |
| Curl.ScanUrl | backend/main.py:795-796 | a URL once set is never replaced, and a URL the walk sets is a later token that does not start with `-` |
| Curl.ScanFlags | backend/main.py:774-794 | without a method flag the method is `POST` exactly when a body was given, and `GET` otherwise; headers and body stay unchanged without their flags; the method never holds a lower-case letter |
| Curl.ParseCurlUrlFirst | backend/main.py:795-799 | a bare second token is the URL |
| Curl.ParseCurlDefaults | backend/main.py:774-777 | without flags the method is `GET`, with no headers and no body |
| Burp.FirstBlank | backend/main.py:104-107 | finds the first whitespace-only line, with none before it |
| Burp.NonBlank | backend/main.py:113-117 | the body lines kept are exactly the non-blank ones |
| Burp.HeadersOf | backend/main.py:104-112 | the header lines applied in order through AddHeader; lines none of which holds a `:` give no headers |
| Burp.BodyOf | backend/main.py:113-117 | the body is none exactly when every line after the blank line is blank; otherwise it is the `\n`-join of the non-blank ones |
| Burp.ParseRequest | backend/main.py:84-117 | a request text parses exactly when its first line splits on spaces into three parts; the method is the first part and the URL is the one given |
| Burp.ParseRequestText | backend/main.py:84-117 | the line loop with its `body_started` flag computes exactly the parse definition |
| Burp.ScanLines | backend/main.py:100-117 | the headers come from the lines before the first blank line, and the body is the `\n`-join of the later non-blank lines |
| Burp.ScanLine | backend/main.py:104-117 | one line of the loop moves the flag, the headers and the body from their values for the lines before it to their values including it |
| Burp.ParseWrittenRequest | backend/main.py:84-117 | a request written as request line, header lines, blank line and body lines parses back to its method, headers and body |
| Burp.ParseItems | backend/main.py:55-134 | the loop over the items keeps exactly the requests `KeptRequests` gives, in order |
| Burp.ParseItem | backend/main.py:55-134 | an item is kept exactly when it has a request text and a response that both decode, its request line splits into three parts, its `<url>` element exists and its status is an integer; the URL is the element's text, or none without text |
| Burp.KeptRequests | backend/main.py:55-134 | the parsed requests of the items not skipped, never more than the items |
| Burp.KeptRequestsSnoc | backend/main.py:55-134 | one more item adds its request at the end exactly when it parses |
| Burp.ConvertBurpToApi | backend/main.py:142-159 | no record exactly when the URL is present as `None`, because `.split` raises; otherwise the URL defaults to empty, the name follows the name rule, and the record is pending with no results |
| Burp.ConvertDefaults | backend/main.py:148-153 | an empty request becomes an unnamed `GET` of the empty URL; a parsed one with a URL keeps its method, URL, headers and body, and one whose `<url>` had no text is not converted |
| Performance.Min | backend/main.py:343 | the minimum is a member of the times and at most each of them |
| Performance.Max | backend/main.py:344 | the maximum is a member of the times and at least each of them |
| Performance.ComputeMetrics | backend/main.py:332-348 | division by zero exactly when `num_requests` ≤ 0; otherwise the average is the mean of the response times, the minimum and maximum are theirs, the successful count is the number of successes, min ≤ avg ≤ max, 0 ≤ success rate ≤ 100 with 100 exactly when the successful count is the total, and the totals are recorded |
| Performance.SumBounds | backend/main.py:342-344 | the mean lies between the minimum and the maximum |
| Performance.RatioBounds | backend/main.py:345 | the success rate is between 0 and 100, and is 100 exactly when all succeeded |
| Performance.RunPerformanceTest | backend/main.py:325-348 | 404 exactly when no API has the id; otherwise the metrics of the results |
| Performance.AllSucceed | backend/main.py:339 | all successes count every request; all failures count none |
| Performance.SuccessCountFull | backend/main.py:339 | the successes number all the results exactly when every test succeeded |
| Performance.FullRateIffAllSucceed | backend/main.py:332-348 | a run with requests reports a success rate of 100 exactly when every one of its tests succeeded |
| LoadTest.Status | backend/main.py:734-752 | figures are returned exactly when the file opens, has a data line after the header, and its last line has at least eight fields |
| LoadTest.StatusOfWrittenRow | backend/main.py:741-749 | a written last row reports its fields 2, 5, 6, 7, 4 and 1 |
| LoadTest.StatusWithoutData | backend/main.py:740 | a file with only its header, or no file, reports nothing |
| LoadTest.LoadTestControl.constructor | backend/main.py:707 | no process, flag clear, nothing running |
| LoadTest.LoadTestControl.StartAsWritten | backend/main.py:705-709 | lines 705-709 with nothing in between: the flag is set with a tracked process; two more `locust` processes run |
| LoadTest.LoadTestControl.Start | backend/main.py:707-709 | with the stray start removed, one more `locust` process runs and it is tracked |
| LoadTest.LoadTestControl.SpawnStray | backend/main.py:705 | one more untracked `locust` runs; nothing else changes |
| LoadTest.LoadTestControl.RaiseFlag | backend/main.py:708 | the flag is set and nothing else changes |
| LoadTest.LoadTestControl.SpawnTracked | backend/main.py:709 | a new tracked `locust` runs, an earlier tracked one still alive becomes untracked, and the flag is left as it is |
| LoadTest.LoadTestControl.TrackedExited | backend/main.py:710-711 | for the run whose process is tracked: that process has ended and the flag clears |
| LoadTest.LoadTestControl.EarlierRunExited | backend/main.py:710-711 | for an earlier run whose process lost its handle: that process ends and the flag clears while the tracked process runs on |
| LoadTest.LoadTestControl.Stop | backend/main.py:725-732 | stops exactly when there is a process and the flag is set, and then the tracked process, if alive, is the one fewer running; otherwise nothing changes |
| LoadTest.StopTwice | backend/main.py:725-732 | a second stop reports that no test is running |
| LoadTest.StopAfterStartAsWritten | backend/main.py:705-711 | as written, a started and stopped load test leaves one `locust` running |
| LoadTest.StopAfterStart | backend/main.py:725-732 | with one tracked process, start then stop leaves none running |
| LoadTest.StopBeforeProcess | backend/main.py:708-709 | a stop between a second run's flag and its `Popen` succeeds but ends nothing; the process started next cannot be stopped and keeps running |
| LoadTest.EarlierRunClearsFlag | backend/main.py:710-711 | when the first of two runs ends, the flag clears while the second run's process is alive, and a stop reports that no test is running |
| Playwright.SafeNameChars | backend/services/playwright_runner.py:8 | an accepted name holds no `/` or `\`, and `\n` at most at its end |
| Playwright.TestName | backend/services/playwright_runner.py:41 | the file name loses a trailing `.py`, or is kept unchanged |
| Playwright.MinIndent | backend/services/playwright_runner.py:71 | none exactly when every line is blank; otherwise it is the indentation of some non-blank line and at most that of every non-blank line |
| Playwright.Dedent | backend/services/playwright_runner.py:72 | the line count is preserved |
| Playwright.DedentRemovesIndent | backend/services/playwright_runner.py:71-72 | each non-blank line loses exactly a whitespace prefix of the minimum width, and blank lines stay blank |
| Playwright.DedentFlush | backend/services/playwright_runner.py:71-72 | after dedent, some non-blank line starts with a non-whitespace character |
| Playwright.DedentAllBlank | backend/services/playwright_runner.py:71 | with only blank lines the minimum is 0 and nothing changes |
| Playwright.ExtractRunBody | backend/services/playwright_runner.py:61-73 | no `run` function raises the error |
| Playwright.SplitLinesJoin | backend/services/playwright_runner.py:83 | `splitlines` gives back the lines of a `\n`-join |
| Playwright.Wrap | backend/services/playwright_runner.py:83 | a blank line becomes empty; any other line gets exactly 8 spaces in front |
| Playwright.PytestCodeBody | backend/services/playwright_runner.py:78-84 | the output is the header, then each body line wrapped and joined by `\n`, then a final `\n` |
| Playwright.WrappedLines | backend/services/playwright_runner.py:83 | the wrapped body keeps one output line per body line |
| Playwright.SplitLines | backend/services/playwright_runner.py:83 | `splitlines` for `\n`; SplitLinesJoin states its meaning |
| Playwright.WrapAll | backend/services/playwright_runner.py:83 | one wrapped line per input line, each wrapped on its own |
| Playwright.Header | backend/services/playwright_runner.py:78-82 | the import line, a blank line, the `def` line and the `with` line, each ending in `\n` |
| Playwright.PytestCode | backend/services/playwright_runner.py:78-84 | the header, the wrapped body lines joined by `\n`, and a final `\n`; PytestCodeBody states its meaning |
| Playwright.ConvertToPytest | backend/services/playwright_runner.py:59-84 | conversion fails exactly when there is no `run` function |
| Playwright.SaveRecordedTestcase | backend/services/playwright_runner.py:26-43 | a bad folder name, then a bad file name, then a missing recording are rejected in that order, before anything is written; the save succeeds exactly when both names pass and the recording exists with a `run` function, and the code is then the converted recording |
| TestCases.PyFileName | backend/app/testcases.py:73 | the file name ends in `.py`, starts with the name, and is the name itself or the name plus `.py` |
| TestCases.PyFileNameIdempotent | backend/app/testcases.py:73 | applying the rule twice equals applying it once |
| TestCases.TestNameOfFileName | backend/app/testcases.py:73 | the test function is named after the name the user gave |
| TestCases.SaveTestcase | backend/app/testcases.py:64-90 | 404 exactly without the folder; a failed save of the recording gives 500 with its cause, and a successful one gives the row with the saved code; the path is exactly folder name, `/`, file name, and both parts passed the safe-name check |
| TestCases.FailedReason | backend/app/testcases.py:160-162 | the reason found after `FAILED` is one line |
| TestCases.FailedReasonOfReport | backend/app/testcases.py:160-162 | in any output whose first `FAILED` is followed by the rest of its line and one complete line, the reason is that complete line |
| TestCases.SecondLine | backend/app/testcases.py:160 | the text between the first and the second newline, or none without a second newline; it never holds a newline |
| TestCases.Classify | backend/app/testcases.py:152-164 | `warning` with the fixed reason exactly when no tests were collected; `pass` with no reason exactly when otherwise the return code is 0; a failure has the `FAILED` line stripped, or else at most 500 characters of stripped stderr |
| TestCases.FirstWithoutCode | backend/app/testcases.py:119-121 | finds the first test case without code, or none exactly when all have code |
| TestCases.RunTestcases | backend/app/testcases.py:106-187 | 404 exactly when nothing is selected; 400 naming the first case without code; otherwise one classified result per case, in order |
| TestCases.RunOne | backend/app/testcases.py:150-185 | the result recorded for one case is its classified verdict with the case's ids and the run's output |
| TestCases.RepairedPath | backend/app/testcases.py:202-217 | a repaired path ends in `.py` |
| TestCases.RepairedOnePart | backend/app/testcases.py:203-209 | a path without a separator becomes the case's folder name, or `test` without a folder, `/`, and the file name with `.py` |
| TestCases.RepairSkipsDeep | backend/app/testcases.py:210-217 | the repair skips a path exactly when it has two or more separators, and such a case is left as it is |
| TestCases.RepairedPartCount | backend/app/testcases.py:202 | the path splits into one piece more than it has `/` and `\` separators |
| TestCases.NewPath | backend/app/testcases.py:202-217 | the repaired path, or the old one for a skipped case |
| TestCases.Repair | backend/app/testcases.py:218-219 | the case with its path replaced by the new path |
| TestCases.RepairAllAt | backend/app/testcases.py:200-220 | each test case is repaired on its own, and its id and folder are kept |
| TestCases.RepairAll | backend/app/testcases.py:200-220 | as many cases as before; RepairAllAt states that each is the repair of the case at its position |
| TestCases.ChangedIds | backend/app/testcases.py:218-220 | never lists more ids than there are test cases |
| TestCases.ChangedIdsExact | backend/app/testcases.py:218-220 | `updated` lists a test case's id exactly when its path changed |
| TestCases.RepairTestcasePaths | backend/app/testcases.py:196-222 | the array is repaired in place, and the result lists the ids whose path changed, in order |
| TestCases.RepairedTwoParts | backend/app/testcases.py:210-214 | a `folder/file` path gets `.py` on its file part |
| TestCases.RepairIdempotent | backend/app/testcases.py:202-220 | a repaired path needs no further repair, whatever the folder name |
| TestCases.DeepFolderSkipped | backend/app/testcases.py:210-217 | a `folder/file` path whose folder name holds a separator is skipped and left as it is |
| TestCases.RepairAllIdempotent | backend/app/testcases.py:196-222 | a second repair pass changes nothing and reports no ids |
| TestCases.SavedPathIsRepaired | backend/app/testcases.py:84 | the path `save_testcase` stores is one the repair leaves as it is |
| Text.Strip | backend/main.py:789 | `strip`: the result is a slice of the input that starts after its leading whitespace, is empty exactly when the input is blank, and neither starts nor ends with whitespace |
| Text.Split | backend/main.py:84 | `split` on one character: at least one piece, none holding the separator; JoinSplit states that joining gives back the input |
| Text.SplitOnce | backend/main.py:788 | `split(':', 1)`: none exactly when the separator is absent; otherwise a separator-free head and the rest, around the first separator |
| Text.Find | backend/app/testcases.py:160 | `find`: none exactly when the text does not occur; otherwise the first position where it occurs |
| Text.FindFirstAt | backend/app/testcases.py:160 | a text occurring right after a prefix that neither holds it nor starts it is found there |

## Left out

- Parsing libraries: XML parsing (`ET.fromstring`), base64 decoding, `shlex.split` and `ast.parse` are not modelled. The model starts from the decoded request text, the token list, and whether a `run` function was found with the lines of its body.
- Side effects: HTTP calls (`api_tester.test_api`), the pytest and `locust` subprocesses, temporary files, file reads and writes, `mkdir` and `unlink` are not modelled. Their results are parameters: test outcomes, process results, the lines of the history file, and whether a recording exists.
- The `os.path.exists` check after saving (backend/app/testcases.py:78-79) is not modelled, because saving always writes the file in the model.
- Databases: SQLAlchemy sessions and rows are records passed in and returned, with no persistence.
- Fresh ids: `uuid4` is an `id` parameter.
- `run_all_apis` runs its tests concurrently with asyncio. The model runs them one after the other with given outcomes, and does not capture interleavings with other handlers.
- Apis.ApiStore.RunAll: does not model the `results` entries for raised exceptions, which carry only an error message, as a separate shape: every finished entry is returned as its updated record.
- Writing the locustfile, the CSV report endpoint, the HTML report, `api_tester.py`, the folder routes and the frontend are not modelled.
- Timing and floats: response times are Dafny `real`, with no floating-point rounding.
- `TestResult` does not model the response body and response headers, which no modelled rule reads.
- Character classes: Python's `\w` and `str.upper`/`lower` are modelled on ASCII only. Unicode word characters and case mappings are not.
- `splitlines` is modelled for `\n` only. Other line breaks (`\r`, `\r\n`, `\x0b`, …) are not.
- Dictionaries are Dafny maps, so the insertion order of headers is not represented.
- The response part of a Burp item (status code value, response body) is not carried, because no modelled rule reads it. The item keeps only whether its `<response>` exists and decodes, and whether its status parses as an integer, which is what decides whether it is kept.
- Base64 decoding is not modelled: a Burp item carries its request text already decoded, or `None` when the `<request>` element is missing, has no text or does not decode (all three skip the item, at backend/main.py:60-62, 66-71 and 132-134).
- Burp.ConvertBurpToApi: a `method` or `headers` key that a JSON upload (backend/main.py:209, 226) gives as `null`, or as a value of another JSON type, is stored as it is by the source; the records here hold a string method and a string-keyed header map, so such a request is not representable. The same holds for a `url` value that is neither a string nor `null`.
- The XML upload loop (backend/main.py:179-201) is not modelled. A record that fails to convert raises out of that loop after the earlier records were already appended; the model states only the single conversion.
- Apis.ApiStore.RecordOutcome: identifies the listed entry by its id, so a record deleted and re-created under the same id during the test is updated like the original.
- LoadTest.LoadTestControl.EarlierRunExited: requires an untracked process to be alive; the death of an earlier run's process is the only event that clears the flag while the tracked one runs, and the moment it happens is left to the scenario.
- The exit of the first, never-waited `locust` process at backend/main.py:705 clears no flag and is not modelled as a separate step.
- Performance.ComputeMetrics: requires as many results as `num_requests` asks for, which is what the loop at backend/main.py:333-335 produces.
- Playwright.SplitLinesJoin and Playwright.PytestCodeBody: stated for bodies whose last line is non-empty, because `splitlines` drops a trailing empty line.

## Findings

| source | as written | input that shows it | evidently intended | confidence | as-written member | corrected member |
|---|---|---|---|---|---|---|
| backend/main.py:705-709 | `run_locust` calls `subprocess.Popen(cmd)` twice and keeps only the second process in `loadtest_process` | start a load test, then call `stop_loadtest` | one `locust` process per run, so that stopping it leaves no load running | medium, not executed | LoadTest.StopAfterStartAsWritten | LoadTest.StopAfterStart |
