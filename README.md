# ContriTrack collector, modelled in Dafny

ContriTrack collects the pull requests that one author, or every author listed in
an inventory file, opened recently on the openEuler pull-request service
(`https://ipb.osinfra.cn/pulls?`). It prints one line per pull request, or it
exports them all to an `.xlsx` workbook. This project models the program's one
source file, `src/main.rs`:

- the argument check `param_check`;
- the query URL builder `url_splice`;
- the collection loop of `query_pr_info`. For each author in turn, pages 1 to 99
  are requested. A page whose `data` is null ends that author's walk. On every
  other page, the records are taken in order up to the first one created before
  the cutoff;
- the sheet layout written by `do_excel`.

Modules, leaf first:

| file | module | what it holds |
|---|---|---|
| wrappers.dfy | Wrappers | `Option`, `Result` and `Outcome`, standing in for panics and `?` |
| errors.dfy | Errors | every way a run can stop early |
| records.dfy | Records | the `PullRequest` record, the string order `Below` (Rust's `<` on strings) and the console line |
| sink.dfy | Sink | where a kept pull request goes: pushed onto `excel_vec`, or printed |
| decimal.dfy | Decimal | the decimal text of a page number, with its inverse |
| params.dfy | Params | the parsed arguments, `ParamCheck`, `UrlSplice`, the author list |
| pagination.dfy | Pagination | the kept prefix of a page, the page walk of one author (`PagesFrom`), the record loop `ScanPage` and the page loop `ScanAuthor` |
| excel.dfy | Excel | the worksheet as a class whose cells are written one by one, the layout `SheetCells`, and `DoExcel` |
| query.dfy | Query | the author walk `ScanAuthors`, the whole run `Run`, the method `QueryPrInfo`, the exit code, and the run-level lemmas |

The loops of the source are methods with loop invariants. Each is proved equal
to a specification function:

- `ScanPage` (the record loop) is proved against `AcceptedPrefix`;
- `ScanAuthor` (the page loop) is proved against `PagesFrom`;
- `QueryPrInfo` (the author loop) is proved against `Run`;
- `DoExcel` (the cell-writing loops) is proved against `ExpectedWorkbook`.

The lemmas then state what the source promises about those functions.

Inputs that stand in for the outside world:

- The fetcher has type `string -> Fetched`. For a page URL it yields a transport
  or decoding failure, or the decoded `data` field: `None` for null or absent, or
  a list of records.
- The cutoff is a string. `None` stands for the panic at src/main.rs:172,
  whatever made `checked_sub_days` return `None` (an overflow, or a local time
  that falls in a daylight-saving gap or fold).
- The inventory file is given as its lines. It is `None` when the file cannot be
  opened.

What a run leaves behind is a `Report`:

- how it ended;
- every page URL it requested, in order;
- the final `excel_vec`;
- the printed lines;
- the workbook written, if any.

The model follows the code where its behaviour departs from what the tool evidently intends:

- A record below the cutoff ends only the scan of its page (`break` at
  src/main.rs:190 leaves the record loop). The next page is still requested.
  An empty `data` list does not stop the walk either. Only a null `data`, a
  failure, or the 99-page bound does (`PagesStopOnlyAtEnd`,
  `PagesEndAtNullOrFailure`).
- A transport error leaves `query_pr_info` through `?` as an `Err`. `main`
  discards it with `let _ =`, so the process ends normally (exit code 0). Panics
  end it with 101 (`ExitCode`).
- The state is checked only when a URL is built, inside the author loop. So an
  empty inventory with no `--state` completes normally
  (`ConfigurationErrorsComeFirst`).
- `do_excel` runs once, after all authors. An inventory whose authors yield
  nothing therefore produces one "no data" notice, not one per author. The
  workbook is named after the `author` field of the first kept record, not after
  an inventory line.
- The endpoint already ends in `?`, so the URL is `link + "author=" + ...` with
  no extra separator.

`Below` compares strings by code point. Rust compares UTF-8 bytes. The two orders
agree on valid text.

## Model

| member | source | states |
|---|---|---|
| Params.ParamCheck | src/main.rs:134-148 | passes exactly when one of `--author` and `--inventory` is given and the other is not; otherwise fails with the conflict error |
| Params.UrlSplice | src/main.rs:50-73 | succeeds exactly when some author (the user, else `--author`) and a state are present; then the URL is `link + "author=" + author + "&state=" + state`; the author is checked first, so no author fails as `NoAuthor` even without a state |
| Params.UrlSpliceIgnoresArgAuthor | src/main.rs:53-54 | with an explicit user, the `--author` argument has no effect on the result |
| Params.UrlSpliceInjective | src/main.rs:50-73 | different users give different URLs, so distinct authors are queried separately |
| Params.ResolveAuthors | src/main.rs:155-164 | the inventory's lines when `--inventory` is given (an error when the file cannot be opened), otherwise `[author]`; `AuthorMissing` exactly when neither is given |
| Params.CheckedArgumentsResolve | src/main.rs:152-164 | after a passing argument check, the "no author" panic at line 160 cannot happen |
| Decimal.DecimalString | src/main.rs:182 | `i.to_string()`: the decimal digits of the page number, most significant first, no leading zero |
| Decimal.DecimalStringDigits | src/main.rs:182 | the page number's text is non-empty, all digits, and has no leading zero |
| Decimal.ParseDecimalString | src/main.rs:182 | reading the decimal text of `n` back gives `n` |
| Decimal.DecimalStringInjective | src/main.rs:182 | different page numbers have different texts |
| Pagination.PageUrl | src/main.rs:182 | the `format!` of the page URL: the author's query URL, then `&page=`, then the page number's decimal text |
| Pagination.PageUrlInjective | src/main.rs:182 | two page numbers never share a URL |
| Pagination.AcceptedPrefix | src/main.rs:188-191 | the kept records of a page are a prefix of it, none is below the cutoff, and the record right after the prefix, if any, is below it, so this is the longest such prefix |
| Pagination.AcceptedPrefixIs | src/main.rs:188-191 | any prefix with no record below the cutoff that ends at the page's end or at a record below it is the kept prefix (uniqueness) |
| Pagination.NewestFirstPrefixIsFilter | src/main.rs:188-191 | if a page lists records newest first, the early `break` loses nothing: the kept prefix equals all records not below the cutoff |
| Pagination.PagesFrom | src/main.rs:181-204 | the walk from page `i` on: the URLs requested, the records kept and the failure, if any, bundled as one trace |
| Pagination.AuthorPages | src/main.rs:181-204 | one author's walk, which starts at page 1 |
| Pagination.RequestsFrom | src/main.rs:181-203 | the walk from page `i` never requests a page past 99 |
| Pagination.RequestsAreUrls | src/main.rs:181-182 | the walk from page `i` requests the URLs of pages `i, i+1, ...`, in order |
| Pagination.AcceptedFrom | src/main.rs:185-200 | the walk keeps nothing below the cutoff |
| Pagination.FailureFrom | src/main.rs:183-187 | the walk fails only with a fetch error |
| Pagination.PagesStopOnlyAtEnd | src/main.rs:181-203 | a walk that starts before the page bound requests at least one page, and every page but the last carried data, so an empty list or a sub-cutoff record does not stop the walk |
| Pagination.PagesEndAtNullOrFailure | src/main.rs:181-203 | a walk that ends before the page bound without failing ends at a null page; the walk fails exactly when its last request failed, and with that request's error |
| Pagination.PageLimitReached | src/main.rs:181 | an endpoint that never returns null is asked for exactly 99 pages, with no failure |
| Pagination.EndMarkerAfter | src/main.rs:181-203 | pages `1..k` with data and a null page `k+1` cost exactly `k+1` requests |
| Pagination.EndMarkerFrom | src/main.rs:181-203 | from page `i`, pages `i..k` with data and a null page `k+1` cost exactly `k+2-i` requests and no failure |
| Pagination.OnePageThenEnd | src/main.rs:181-203 | one page with data and then a null page: two requests, and that page's kept prefix |
| Pagination.RequestsDistinct | src/main.rs:181-182 | no page URL is requested twice in one author's walk |
| Pagination.AcceptedAreContributions | src/main.rs:185-200 | what a walk keeps is the in-order concatenation of the kept prefixes of the pages it fetched |
| Pagination.ScanPage | src/main.rs:188-200 | the record loop delivers exactly the page's kept prefix, in order, to the sink |
| Pagination.WalkContinues | src/main.rs:185-200 | after a page with data the walk requests that page and then walks on from the next page, failing as that walk fails |
| Pagination.AcceptedContinue | src/main.rs:185-200 | after a page with data the walk keeps that page's kept prefix, then what the walk from the next page keeps |
| Pagination.WalkEnds | src/main.rs:183-203 | a page without data is the walk's last request; nothing more is kept, and a failed request is the walk's failure |
| Pagination.ScanAuthor | src/main.rs:181-204 | the page loop requests exactly the walk's URLs, delivers exactly its kept records, and reports its failure |
| Sink.Emit | src/main.rs:192-199 | delivering records in order: appended to `excel_vec` in spreadsheet mode, printed one line each in console mode |
| Sink.EmitModes | src/main.rs:192-199 | spreadsheet mode appends the records to `excel_vec` and prints no record line; console mode prints the line of each record, in order, and leaves `excel_vec` alone |
| Sink.EmitTwice | src/main.rs:192-199 | delivering in two steps is delivering the concatenation, so pages and authors add up in order |
| Records.ConsoleLine | src/main.rs:195-198 | the printed line `author, sig, repo, link, created_at`, joined by comma and space |
| Records.ConsoleLines | src/main.rs:195-198 | one line per record |
| Records.ConsoleLinesAt | src/main.rs:195-198 | line `k` is the `author, sig, repo, link, created_at` line of record `k` |
| Records.ConsoleLinesAppend | src/main.rs:192-199 | the lines of two runs of records are the lines of the first followed by those of the second |
| Records.Below | src/main.rs:189 | Rust's `<` on strings: lexicographic less-than by character, where a proper prefix is smaller |
| Records.BelowIrreflexive | src/main.rs:189 | no timestamp is below itself |
| Records.BelowTransitive | src/main.rs:189 | the string order is transitive |
| Records.BelowTotal | src/main.rs:189 | any two different strings are ordered one way or the other |
| Records.BelowThrough | src/main.rs:189 | a string not above one below the cutoff is itself below the cutoff |
| Records.BelowAtFirstDifference | src/main.rs:189 | the first differing character decides the order |
| Records.BelowAfterCommonPrefix | src/main.rs:189 | a common prefix does not change the order |
| Query.ScanAuthors | src/main.rs:176-205 | the walk over all authors keeps nothing below the cutoff, makes at most 99 times the number of authors requests in total, and fails only with a fetch error or a missing state |
| Query.FailureIsFinal | src/main.rs:176-205 | after the first failure no further author is walked |
| Query.Run | src/main.rs:150-212 | the whole run: argument check, author list, cutoff, then the author walk; pushes and prints in order; a failure during the walk keeps what was already requested, pushed and printed and writes no workbook; a completed spreadsheet run writes the workbook of `do_excel` |
| Query.QueryPrInfo | src/main.rs:150-212 | the run performs exactly the checks, requests, pushes, prints and export of `Run` |
| Query.ExitCode | src/main.rs:215-218 | the exit code is 0 exactly for a completed run or a transport error, which `main` discards; every panic exits with 101 |
| Query.NoStateNoRequests | src/main.rs:65-69 | without a state, walking a non-empty author list fails with `NoState` before any request; an empty list does not fail |
| Query.RunKeepsOnlyRecent | src/main.rs:176-211 | nothing kept is below the cutoff; spreadsheet mode pushes the kept records and prints no record line; console mode prints one line per kept record, in order, and pushes nothing; a failed run writes no workbook |
| Query.SpreadsheetExport | src/main.rs:207-208 | in spreadsheet mode a successful run writes no workbook exactly when nothing was kept; otherwise it writes `<first author>.xlsx` with the layout of `SheetCells` |
| Query.ConfigurationErrorsComeFirst | src/main.rs:151-173 | configuration errors come before any request, push or print; a failed argument check is the conflict error; without a state the run fails only if there is an author |
| Query.RunBounds | src/main.rs:155-181 | after a passing check the run never reaches the "no author" panics and requests at most 99 times the number of authors pages in total |
| Query.SingleAuthorRun | src/main.rs:155-205 | with a single `--author`, the run's requests, status, pushes and prints are those of that author's page walk |
| Query.AliceScenario | src/main.rs:176-205 | a page with records from today, yesterday and eight days ago, then a null page, gives two requests and two printed lines in order under a seven-day window |
| Query.AlicePage | src/main.rs:188-191 | on that page only the eight-day-old record, which comes last, is below the cutoff |
| Excel.CellAt | src/main.rs:86-112 | the cell at a position: a title in row 0; author, sig, repo, link (a hyperlink) or created_at of record `k` in row `k + 1` |
| Excel.SheetCells | src/main.rs:86-112 | every cell of the sheet: rows 0 to the list's length, five columns, each `CellAt` |
| Excel.ExpectedWorkbook | src/main.rs:77-116 | no workbook for an empty list; otherwise one named `list[0].author + ".xlsx"` holding `SheetCells` |
| Excel.SheetLayout | src/main.rs:86-112 | the sheet has exactly one row more than the list has records, each of five columns: the titles in row 0, and author, sig, repo, link (as a hyperlink) and created_at of record `k` in row `k + 1` |
| Excel.DoExcel | src/main.rs:76-116 | writes no workbook for an empty list; otherwise writes one named `list[0].author + ".xlsx"` whose cells are exactly the layout |
| Excel.Worksheet.constructor | src/main.rs:84 | a new worksheet has no cells |
| Excel.Worksheet.WriteString | src/main.rs:88-100 | writing text replaces exactly one cell |
| Excel.Worksheet.WriteUrl | src/main.rs:101-110 | writing a link replaces exactly one cell with a hyperlink |

## Left out

- Command-line parsing with clap (src/main.rs:28-46, 151). The parsed fields are inputs.
- HTTP through reqwest and the tokio runtime (src/main.rs:183, 215-218). They are replaced by the fetcher input. Transport failures are one abstract error. A request that never returns cannot be expressed.
- JSON decoding with serde (src/main.rs:184-187). The fetcher yields decoded pages. A malformed body and a mis-shaped `data` are abstract failures. A body that is not an object also reads as a null `data` in the source; here that is the fetcher's choice.
- The clock and the chrono arithmetic and formatting of the cutoff (src/main.rs:167-173). The cutoff is an input string, and `None` stands for the panic at src/main.rs:172, whatever made `checked_sub_days` return `None`.
- Reading the inventory file (src/main.rs:119-131). Its lines are an input, and `None` stands for a file that cannot be opened. Lines the reader fails on are already dropped from that input. A read error that repeats, for example a directory given as `--inventory`, makes the source's loop at src/main.rs:125-129 run forever; the model cannot express that.
- xlsxwriter itself. This covers failures to create, write or close the workbook, which `?` returns as an `Err` that `main` drops. It also covers the cell formats (red titles, blue underlined links).
- The "please wait" and "no data" notices (src/main.rs:78, 179).
- The endpoint's answers are fixed for the whole run: the fetcher is a function of the URL, so an author listed twice in the inventory (src/main.rs:125-127 keeps every line) gets the same answers both times, while the real server may answer the repeated requests differently. No property proved here depends on this.
- Excel.DoExcel: does not model the `u32` row index wrapping after 2^32 - 1 records, nor the `u16` column conversion, because the sheet's row limit makes such workbooks unwritable anyway.
