# scrapper, modelled in Dafny

`scrapper` reads a CSV list of (URL, chapter number) records, downloads each
page, keeps part of the text of the first element matching a CSS selector, and
writes one `chapter_<n>.txt` per record, with a bounded number of downloads in
flight. This project models the logic around that I/O and proves what it
promises:

- `errors.dfy` (module `Errors`): the `ScrapperError` enum, its constructors,
  recoverability, the URL accessor, the user-facing and debugging messages,
  the `Display` texts and the `From` conversions.
- `web_scraper.dfy` (module `WebScraper`): `ContentExtractor`, over an
  abstract selection result (a selector that does not parse, or the text
  nodes of every matched element in document order).
- `task_manager.dfy` (module `Tasks`): `TaskManager` as a class whose
  pending join set is a multiset of outcomes (a value or a panic); which
  task finishes first is chosen nondeterministically.
- `types.dfy` (module `Types`): `ChapterRecord`, its file name, the
  `std::path` join used with it, and `ScrapingStats` as a class with
  counters updated in place.
- `config.dfy` (module `Config`): the defaults, the ordered validation
  chain (including Rust's `trim` over Unicode white space), and the
  fallback and override logic of `from_args` with the parsed command line and
  the decoded TOML file as inputs.
- `csv_reader.dfy` (module `CsvReader`): `read_records` and
  `count_records_and_existing` over a sequence of decoded CSV rows and an
  abstract file-exists predicate.
- `legacy_main.dfy` (module `LegacyMain`): the stand-alone `main`: the
  counting pass, the early exit, the dispatch loop with its wait-then-spawn
  at 20 tasks, the drain and its success/error accounting, `chapter_name`,
  and the text-node loop of `scrape`.
- `wrappers.dfy` and `text.dfy`: `Option`/`Result`, and string predicates
  (prefix, suffix, containment, newline counting, decimal rendering).

The CSV stream is a `seq<CsvRow>`, each row either `Record(fields)` or
`Malformed(reason)` for a record the decoder rejects (the header row is
already consumed, as `csv_async` does by default). File existence is a
function `string -> bool` that stays the same for the whole run. A task of
the legacy loop is a function from (link, file name) to its `TaskResult`.

The code has no retry queue, no exponential backoff, no trimming of the
extracted text, no substring filtering (filters are prefix tests) and no
minimum-length check on the output, and neither does the model.

The two text-node loops differ, and `LegacyMain.FilteredNodeStillEndsALine`
pins the difference down: `ContentExtractor` drops a filtered node entirely,
while the loop in `main.rs` still writes its newline.

In `main.rs` the dispatch loop reads column 1 before column 0, so a row that
has column 1 always has column 0 and the "Missing link column" error cannot
occur; `LegacyMain.DispatchRow` therefore has only the two reachable errors.

## Model

| member | source | states |
|---|---|---|
| Errors.IsRecoverable | src/error.rs:127-135 | true exactly for `Http` errors whose status is absent or one of 429, 502, 503; false for every other variant |
| Errors.Url | src/error.rs:138-145 | `Some` exactly for `WebScraping`, `ContentExtraction` and `Http`, carrying the stored URL; `None` otherwise |
| Errors.NewConfig | src/error.rs:50-54 | yields `Config` with the message unchanged; not recoverable, no URL |
| Errors.NewCsv | src/error.rs:57-61 | yields `Csv` with the message unchanged; not recoverable, no URL |
| Errors.NewFileSystem | src/error.rs:64-69 | yields `FileSystem` with message and optional path unchanged; not recoverable, no URL |
| Errors.NewWebScraping | src/error.rs:72-77 | yields `WebScraping` with URL and message unchanged; not recoverable; `Url` gives the URL back |
| Errors.NewContentExtraction | src/error.rs:80-85 | yields `ContentExtraction` with URL and message unchanged; not recoverable; `Url` gives the URL back |
| Errors.NewHttp | src/error.rs:88-94 | yields `Http` with URL, status and message unchanged; recoverable iff the status is absent or 429/502/503; `Url` gives the URL back |
| Errors.NewTaskExecution | src/error.rs:97-101 | yields `TaskExecution` with the message unchanged; not recoverable, no URL |
| Errors.NewProgress | src/error.rs:104-108 | yields `Progress` with the message unchanged; not recoverable, no URL |
| Errors.NewValidation | src/error.rs:111-116 | yields `Validation` with field and message unchanged; not recoverable, no URL |
| Errors.NewIo | src/error.rs:119-124 | yields `Io` with message and optional path unchanged; not recoverable, no URL |
| Errors.FromIoError | src/error.rs:251-255 | an I/O error becomes `Io` with no path, hence not recoverable |
| Errors.FromReqwestError | src/error.rs:257-263 | a request error becomes `Http` with the given status and text, the URL defaulting to the empty string; recoverable iff the status is absent or 429/502/503 |
| Errors.FromCsvError | src/error.rs:265-269 | a CSV error becomes `Csv` with its text; not recoverable |
| Errors.FromTomlError | src/error.rs:271-275 | a TOML error becomes `Config` whose message starts with "TOML parsing error: "; not recoverable |
| Errors.FromJoinError | src/error.rs:277-281 | a task join error becomes `TaskExecution`, hence not recoverable and without URL |
| Errors.HttpKind | src/error.rs:183-198 | the branch the HTTP message takes: 404, 403, 429, 500..=599, no status, each exactly; anything else is the generic branch |
| Errors.RecoverableExamples | src/error.rs:297-304 | 429, 502, 503 and no status are recoverable; 404, 403 and 500 are not |
| Errors.NotFoundText | src/error.rs:184 | a 404 message starts "Page not found (404): " and names the URL |
| Errors.AccessDeniedText | src/error.rs:185-187 | a 403 message starts "Access denied (403) for " and names the URL |
| Errors.RateLimitedText | src/error.rs:188-190 | a 429 message starts "Rate limited (429) for " and names the URL |
| Errors.ServerErrorText | src/error.rs:191-193 | every status in 500..=599 gets the server-error message, which names the URL |
| Errors.OtherStatusText | src/error.rs:194 | any other status gets the generic "HTTP error (" message, which names the URL |
| Errors.ConnectionErrorText | src/error.rs:195-197 | no status gets the connection-error message, which names the URL |
| Errors.HttpMessageText | src/error.rs:183-198 | for every status the message opens with the lead of the branch `HttpKind` selects and contains the URL |
| Errors.LeadInitial | src/error.rs:184-197 | the six branch leads start with six different letters, so no message opens like another branch's |
| Errors.RecoverableGatewayStatusesAreServerErrors | src/error.rs:191-192 | 502 and 503 are recoverable and are rendered by the 500..=599 branch, not a branch of their own |
| Errors.HttpMessageDeterminesKind | src/error.rs:183-198 | two HTTP errors with the same user message fell into the same status branch |
| Errors.NotFoundMessage | src/error.rs:306-312 | a 404 message starts with "Page not found" and contains "Check if the URL is correct" |
| Errors.NotFoundTailHoldsHint | src/error.rs:184 | the fixed end of the 404 message holds "Check if the URL is correct" |
| Errors.UserMessageNamesUrl | src/error.rs:148-220 | whenever an error has a URL, its user message contains it |
| Errors.DebugInfoNamesMessage | src/error.rs:223-244 | the debugging text of every variant contains the error's message |
| Types.NewChapterRecord | src/types.rs:8-13 | stores URL and chapter number unchanged |
| Types.FileName | src/types.rs:15-17 | the name is "chapter_", then exactly the chapter number, then ".txt" |
| Types.FileNameInjective | src/types.rs:15-17 | equal file names mean equal chapter numbers |
| Types.JoinPathEnds | src/csv_reader.rs:65-67 | the joined path ends with the name and, for a relative name, starts with the directory |
| Types.JoinPath | src/csv_reader.rs:65-67 | `Path::join` on Unix: an absolute name replaces the directory (for a relative name see `Types.JoinPathEnds`) |
| Types.ScrapingStats.constructor | src/types.rs:20-26 | the default statistics have all four counters at 0 |
| Types.ScrapingStats.RecordsToProcess | src/types.rs:29-31 | needs `existing <= total`; result plus `existing` is `total` |
| Types.ScrapingStats.IncrementSuccess | src/types.rs:33-35 | adds one to the success counter and leaves the other three unchanged |
| Types.ScrapingStats.IncrementError | src/types.rs:37-39 | adds one to the error counter and leaves the other three unchanged |
| Config.TrimStart | src/config.rs:171 | removes exactly the leading white space: a suffix of the input, what it drops is blank, and it does not start with white space |
| Config.TrimEnd | src/config.rs:171 | removes exactly the trailing white space: a prefix of the input, what it drops is blank, and it does not end with white space |
| Config.Trim | src/config.rs:171 | `str::trim`: no longer than the input, and when not empty it neither starts nor ends with white space |
| Config.TrimEmptyIffBlank | src/config.rs:171-173 | a selector is empty after trimming iff it consists of white space only |
| Config.Default | src/config.rs:39-84 | 8 tasks, 250 ms, 45 s, skip 2, not verbose, and it violates no validation rule |
| Config.Validate | src/config.rs:156-190 | `Ok` iff no rule is violated; an error names a violated rule with no earlier rule violated; a missing input file only adds a warning |
| Config.ValidIffInRanges | src/config.rs:157-182 | valid iff 1..=50 tasks, delay of at least 50 ms, a selector not blank, timeout 1..=300 s |
| Config.MissingInputOnlyWarns | src/config.rs:185-189 | whether the input file exists never changes the verdict |
| Config.DefaultValidates | src/config.rs:39-84 | the defaults pass validation |
| Config.FromFile | src/config.rs:88-99 | a loaded file is returned only when it decodes and passes validation, and then unchanged |
| Config.Starting | src/config.rs:108-116 | the file's configuration when one is named and loads, the defaults otherwise; valid either way |
| Config.PassedBefore | src/config.rs:157-182 | passing the first `n` checks of the chain means violating none of the first `n` rules |
| Config.ApplyOverrides | src/config.rs:118-136 | the field-by-field overrides produce exactly the merge of the loaded configuration with the given options |
| Config.FromArgs | src/config.rs:102-140 | the result is the starting configuration with the given options applied, returned iff it passes validation; otherwise the first violated rule |
| Config.NoOverridesKeepStart | src/config.rs:118-136 | with no option given the configuration stays as loaded |
| Config.MergeKeepsUnexposedFields | src/config.rs:118-136 | fields without an option keep their loaded value; verbosity can be switched on but never off |
| Config.GivenOptionsWin | src/config.rs:118-136 | each given option replaces its field |
| Config.NoOverridesAlwaysValid | src/config.rs:108-138 | without value options `from_args` always succeeds |
| WebScraper.NewExtractor | src/web_scraper.rs:17-23 | always succeeds, takes selector and skip count from the configuration, and filters only "window.pubfuturetag" |
| WebScraper.ExtractorIgnoresConfiguredPatterns | src/web_scraper.rs:17-23 | the configuration's own filter patterns make no difference |
| WebScraper.ShouldFilterText | src/web_scraper.rs:56-60 | true iff the node starts with some pattern |
| WebScraper.PatternInsideIsKept | src/web_scraper.rs:56-60 | a node with the pattern in its middle is kept: the test is on prefixes |
| WebScraper.LinesSnoc | src/web_scraper.rs:49-50 | appending a kept node adds the node and exactly one newline |
| WebScraper.ExtractContent | src/web_scraper.rs:25-54 | an unparsable selector and a missing element are errors; otherwise the text of the first element's kept nodes, each followed by one newline, as a function of nodes, skip count and patterns alone |
| WebScraper.LinesLength | src/web_scraper.rs:36-51 | the output length is the sum of the kept nodes' lengths plus one per node |
| WebScraper.LinesEmptyIff | src/web_scraper.rs:36-53 | the output is empty iff no node is kept; there is no minimum length |
| WebScraper.KeptIgnoresSkipped | src/web_scraper.rs:38-42 | nodes before the skip count never influence the output |
| WebScraper.KeptBound | src/web_scraper.rs:38-47 | at most the number of nodes past the skip count are kept |
| WebScraper.KeptMembers | src/web_scraper.rs:38-51 | a string is kept iff it occurs at or past the skip count and starts with no pattern |
| Tasks.ValueOf | src/task_manager.rs:23 | a finished task yields its value, a panicked one `None` |
| Tasks.TaskManager.constructor | src/task_manager.rs:8-13 | starts empty with the given capacity |
| Tasks.TaskManager.IsEmpty | src/task_manager.rs:46-53 | empty iff `Len()` is 0 |
| Tasks.TaskManager.Len | src/task_manager.rs:46-48 | the number of pending tasks: zero exactly when none is pending, and no smaller than the multiplicity of any pending outcome |
| Tasks.TaskManager.SpawnOrWait | src/task_manager.rs:14-32 | below capacity the task joins the pending set and the result is `None`; at capacity the task is not started, one pending task (if any) is removed and its value returned unless it panicked; `Len() <= capacity` is preserved |
| Tasks.TaskManager.JoinAll | src/task_manager.rs:35-43 | leaves the set empty and returns exactly the values of the tasks that did not panic, so no more than were pending |
| Tasks.ZeroCapacityNeverSpawns | src/task_manager.rs:21-24 | with capacity 0 nothing is ever started and nothing is returned |
| Tasks.CapacityIsRespected | src/task_manager.rs:14-32 | with capacity 2, a third call waits for one of the first two tasks and leaves one pending |
| CsvReader.RowToRecord | src/csv_reader.rs:30-42 | a decoding failure, a missing column 0 and a missing column 1 are errors in that order; otherwise URL from column 0 and chapter number from column 1 |
| CsvReader.ReadRecords | src/csv_reader.rs:20-46 | succeeds iff every row converts, then one record per row in input order; otherwise the error of the first failing row |
| CsvReader.ChapterPathIsFileName | src/csv_reader.rs:65-67 | the existence check uses the output directory joined with `ChapterRecord`'s file name |
| CsvReader.CountExistingBound | src/csv_reader.rs:60-73 | no more records exist than were read |
| CsvReader.CountRecordsAndExisting | src/csv_reader.rs:48-76 | fresh statistics with `total` the number of rows, `existing` the rows with column 1 whose file exists, `existing <= total`, other counters 0; the first undecodable row aborts |
| LegacyMain.LegacyFileNameIsChapterPath | src/main.rs:27 | the hard-coded path is "./out" joined with `ChapterRecord`'s file name |
| LegacyMain.ChapterName | src/main.rs:151-154 | for a name with the prefix and suffix, rebuilding the path from the result gives the name back; any other name gives "unknown" |
| LegacyMain.ChapterNameRoundTrip | src/main.rs:151-154 | the chapter number comes back from every hard-coded file name |
| LegacyMain.ScrapeText | src/main.rs:159-169 | no matched element is a panic (`None`); otherwise the legacy text of the first element's nodes |
| LegacyMain.LegacyNewlines | src/main.rs:163-168 | with no newline inside the nodes the output has exactly max(0, count - 5) newlines, filtered nodes included |
| LegacyMain.LegacyAgreesWhenNothingFiltered | src/main.rs:163-168 | when no node past the fifth is filtered, the legacy loop writes what `ContentExtractor` with skip 5 writes |
| LegacyMain.FilteredNodeStillEndsALine | src/main.rs:163-168 | a filtered node still yields a newline in the legacy loop, while `ContentExtractor` yields nothing |
| LegacyMain.Scrape | src/main.rs:150-180 | a failed download or failed save is an error, a missing element a panic, and only a successful save writes the legacy text |
| LegacyMain.DispatchRow | src/main.rs:69-77 | a row is accepted iff it decodes and has column 1; otherwise a read error or the missing-chapter-number error |
| LegacyMain.RowTasks | src/main.rs:69-110 | a row starts at most one task, and exactly one iff it is accepted and its file does not exist |
| LegacyMain.SpawnedSnoc | src/main.rs:68-112 | the tasks of one more row are appended after those of the rows before it |
| LegacyMain.CountSucceededSnoc | src/main.rs:84-99 | the successes of a longer result list are those of its parts added |
| LegacyMain.CountPass | src/main.rs:19-32 | total is the number of rows and existing the rows with column 1 whose file exists, existing <= total; the first undecodable row aborts |
| LegacyMain.JoinNext | src/main.rs:83-99 | exactly one pending task leaves the set and the rest stay; it adds one to exactly one counter, to the success counter iff it succeeded |
| LegacyMain.WaitThenSpawn | src/main.rs:82-110 | below 20 pending the new task simply joins the set and no counter moves; at 20 exactly one pending task is joined and counted first and the new task joins anyway; a set of at most 20 stays at most 20 |
| LegacyMain.Admit | src/main.rs:69-110 | a row whose file exists changes nothing; otherwise the task run on its link and hard-coded file name is admitted by wait-then-spawn; the set stays at most 20 and every task stays counted once, as pending or as a success or an error |
| LegacyMain.DispatchAndDrain | src/main.rs:65-139 | aborts iff some row is rejected, with the error of the first rejected row; otherwise every task for a row without file is counted once, successes exactly as the successful tasks |
| LegacyMain.SpawnedCount | src/main.rs:68-112 | the spawned tasks number exactly the records to process |
| LegacyMain.AllExistIff | src/main.rs:19-37 | nothing is left to process iff every row decodes, has column 1 and names an existing file |
| LegacyMain.Run | src/main.rs:12-148 | the first undecodable row aborts; otherwise it aborts iff some row is rejected, with the first rejected row's error; exits before dispatching iff every file exists; a finished run counts successes plus errors equal to `total - existing` |

## Left out

- HTTP fetching with `reqwest`, file creation and writing, and the
  `scrape_chapter` and `save_content` methods: I/O. In `LegacyMain.Scrape`
  the download and the save outcome are inputs.
- HTML parsing and CSS selector matching (the `scraper` crate): the selection
  result is an input, as the text nodes of every matched element.
- CSV decoding (`csv_async`), TOML encoding and decoding, `clap` argument
  parsing, `save_to_file`, `create_sample_config` and
  `handle_config_generation`: foreign libraries and I/O; parsed values are
  inputs.
- Opening the CSV files (`File::open` failures in `csv_reader.rs` and
  `main.rs`): the modelled streams start once the file is open.
- `src/progress.rs` and every progress bar, `println` and `eprintln`: user
  interface only. `Config.Validate` returns the missing-input warning as a
  string instead of printing it; the fallback warnings of `from_args` are
  not modelled.
- `src/file_manager.rs`: its path logic is the join in `Types.JoinPath`.
- `WebScraper::new` and its `reqwest::Client`: I/O set-up.
- The `sleep` pacing (100 ms in `main.rs`), tokio scheduling and real
  parallelism: only the capacity bookkeeping is kept, with the order of
  completion chosen nondeterministically.
- Tasks.TaskManager.SpawnOrWait: a task is given as the outcome it will
  eventually have, not as a closure producing a future.
- LegacyMain.DispatchAndDrain: the bound of 20 tasks in flight is stated by
  the contracts of `LegacyMain.WaitThenSpawn` and `LegacyMain.Admit` (a set
  of at most 20 stays at most 20) and kept as a loop invariant; it is not a
  postcondition of the whole loop.
- LegacyMain.DispatchAndDrain: file existence is fixed for the whole run, so
  a file written by a task during the run does not change later checks.
- LegacyMain.Scrape: the error messages added by `anyhow` contexts are plain
  strings, and the panic text of the `unwrap` is a placeholder.
- Errors.ServerErrorText: states only that the message starts with
  "Server error (", not the `{status:?}` text that follows (the full text is
  still the definition of `Errors.HttpMessage`).
- Errors.UserFriendlyMessage, Errors.DebugInfo and Errors.Display carry no
  postcondition of their own; their properties are the lemmas in the table.
- The `Debug` rendering of paths quotes the path without escaping special
  characters.
- Types.ScrapingStats.IncrementSuccess: counters are unbounded; `usize`
  overflow is not modelled (as with `total` and `existing`).
- The internals of `From<reqwest::Error>`: the URL and status come from
  library accessors and are inputs.
